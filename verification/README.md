# Pitcher List daily starter reports, modelled in Dafny

The program is a Streamlit page with two branches.

**Yesterday's pitcher report.** It builds an HTML text from yesterday's games.
- For every scheduled game id it reads the Baseball Savant feed and classifies the game as "Statcast Games", "No Statcast" or "Cancelled".
- It takes the game's boxscore, tags every pitcher row with the team abbreviation, the match-up ("HOME vs. AWAY"), the game id and the status, and keeps home rows before away rows.
- It inner-joins the rows with the day's broadcast table (`gamePk`, `ON_TV`) and drops the team-total rows, whose name field contains "Pitchers".
- It resolves each pitcher's full name, falling back to "Unknown", and labels the five stats ("6.0 IP", "2 ER", ...).
- It groups the rows by (status, on TV), sorts the groups by the `header_order` table and writes one block per group: a coloured heading, the distinct match-ups, then one bold line per pitcher.

**Today's TV list.** It left-joins today's broadcast table with today's schedule (probable starters). It keeps the televised rows and writes a plain-text list: a fixed header, then one "NAME - " line per probable starter, home column first, then away column.

The model is a set of pure functions over immutable records, one module per stage:

| module | stage |
|---|---|
| `Schedule` | `parse_game_data`: the broadcast table |
| `Savant` | the Statcast status rule |
| `Tagging` | the per-game loop and the concatenation of its rows |
| `Merge` | the inner join and the "Pitchers" filter |
| `Names` | name resolution and stat labels |
| `Grouping` | pandas' group-by and the stable `sorted` |
| `Render` | the HTML text |
| `TvList` | the today branch |
| `Pipeline` | both branches end to end, with a worked example |

`Text` holds the string helpers: substring, join and concatenation. `Wrappers` holds `Option`.

Every remote call becomes a value passed in:
- the two schedule payloads;
- `statsapi.schedule`, as the list of games or schedule rows;
- per game, the Savant feed and the boxscore, each `None` when the call raised or returned nothing;
- `statsapi.player_stat_data`, as a lookup function returning `None` when it raised.

Behaviour of the code that is easy to misread:
- **Cancelled groups come first.** Cancelled keys are missing from `header_order`, so the sort key `header_order_map.get(..., -1)` (main.py:149) ranks them before every other group.
- **Cancelled groups get a heading.** The header key is `(statcast_status == "Statcast Games", on_tv_val)` (main.py:153). A Cancelled group therefore gets the "No Statcast" heading, and the headers lookup never fails.
- **Stats carry their column label.** Every stat in the report reads like "6.0 IP", because the reshaping at main.py:124 appends the upper-cased column name to each value.
- **The today join keeps every broadcast row.** The left side of the join at main.py:195 is the broadcast table, not the schedule. A televised game missing from the schedule therefore still yields a row, with missing-value cells (see Findings).

## Model

| member | source | states |
|---|---|---|
| Schedule.AnyTv | main.py:38-39 | a game is televised exactly when one of its broadcasts has type "TV"; a missing broadcasts list means not televised |
| Schedule.ParseGameData | main.py:33-42 | one row per game of every date, in payload order; each row carries that game's `gamePk`, and its flag is set iff the game has a "TV" broadcast; a payload without `dates` gives the empty table |
| Savant.ClassifyStatus | main.py:62-73 | Cancelled iff the status code is "C", whatever the pitch data; otherwise "Statcast Games" iff the feed holds a non-empty `topPitches`, else "No Statcast" (every missing level counts as empty) |
| Tagging.ProcessGame | main.py:75-98 | a game is kept iff its feed was read, its boxscore is present and some side has pitcher rows; a kept game yields the home rows then the away rows, each with its side's abbreviation, and every row shares the "HOME vs. AWAY" match-up, the game id and the game's status |
| Tagging.TagGames | main.py:55-108 | every concatenated row comes from a kept game of the list and carries that game's id |
| Tagging.TagGamesAppend | main.py:55-102 | games are processed independently: the rows of a list of games are the rows of its parts, concatenated in game order |
| Tagging.TagGamesEmpty | main.py:104-105 | the concatenated table is empty iff every game was skipped |
| Merge.InnerJoin | main.py:109 | every joined row pairs a tagged row with the flag of a broadcast row for that row's game |
| Merge.MatchesOfUnique | main.py:109 | when the broadcast table has one row per game, a game has no match if it is absent and exactly its own row otherwise |
| Merge.DropPlaceholders | main.py:110 | a row survives the filter iff its name field does not contain "Pitchers" |
| Merge.CleanRowsAppend | main.py:108-110 | join and filter act row by row and keep the concatenated order |
| Merge.CleanRowsSingle | main.py:109-110 | a team-total row or a row whose game has no broadcast row disappears; any other row survives once, with its game's flag, when the broadcast table has one row per game |
| Merge.CleanRowsSelects | main.py:108-110 | with one broadcast row per game, join-then-filter equals an independent selection: the rows of scheduled games that are not team totals, each paired with its game's flag |
| Names.ResolveNames | main.py:112-122 | one name per surviving row in row order: "first last" when the lookup of its person succeeds, "Unknown" when it fails |
| Names.FailureIsLocal | main.py:113-119 | a lookup that fails for one person turns exactly that person's rows into "Unknown" and leaves every other row's name unchanged |
| Names.Reshape | main.py:124-130 | every report row has the resolved name and the team, then innings, earned runs, hits, walks and strikeouts each followed by its upper-cased label, then the status, the flag and the match-up of its source row |
| Grouping.KeyOrderSorted | main.py:147-148 | the order group keys come out of the group-by ("Cancelled" < "No Statcast" < "Statcast Games", then False < True) is strictly increasing in pandas' key comparison |
| Grouping.KeyOrderComplete | main.py:147-148 | that key order lists every possible (status, on TV) key exactly once |
| Grouping.GroupBy | main.py:147-148 | each group holds exactly the rows of its key, in table order, and is never empty; no two groups share a key; every row's key has a group |
| Grouping.GroupByPartition | main.py:147-148 | the members of all groups, taken together, are a permutation of the rows |
| Grouping.Priority | main.py:145-149 | the sort key is -1 or a position of `header_order`, and it is -1 exactly for Cancelled keys |
| Grouping.PriorityIsHeaderPosition | main.py:139-149 | the sort key equals the key's position in `header_order`, and the `-1` default applies exactly to Cancelled keys |
| Grouping.HeaderOrderListsTracked | main.py:139-144 | `header_order` lists exactly the keys whose status is not Cancelled |
| Grouping.SortGroups | main.py:149 | the sorted list is ordered by rank, is a permutation of its input, and keeps the input order within each rank (stability) |
| Grouping.SortedUnique | main.py:149 | a rank-ordered list is determined by its groups of each rank, so a stable sort has only one possible result |
| Grouping.SortedGroupOrder | main.py:147-149 | the sorted groups are the non-empty groups in the order Cancelled/False, Cancelled/True, Statcast/True, Statcast/False, No Statcast/True, No Statcast/False |
| Render.Heading | main.py:132-154 | every group key, Cancelled included, has a heading in the four-entry headers table, chosen by (is a Statcast game, on TV) |
| Render.HeadingsDistinct | main.py:132-137 | two groups share a heading iff they share the header key |
| Render.CancelledHeading | main.py:151-154 | a Cancelled group is headed exactly like a No Statcast group with the same TV flag, and unlike a Statcast group |
| Render.UniqueMembers | main.py:156 | the match-up list holds every match-up of the group and nothing else, each once |
| Render.UniqueIsFirstOccurrences | main.py:156 | the match-up list equals an independent definition: the values at their first occurrence, in order |
| Render.RenderGroup | main.py:152-167 | a group's block opens with its heading; its match-up block follows the first separator and its pitcher block follows the second |
| Render.RenderReport | main.py:151-167 | the report is empty for no groups and otherwise opens with the first group's block |
| Render.ReportStartsWithHeading | main.py:151-154 | a non-empty report opens with its first group's heading |
| Render.RenderAppend | main.py:151-167 | the report of a list of groups is the reports of its parts, concatenated |
| Render.EveryPitcherRendered | main.py:161-166 | every member of every group has its bold line "NAME (TEAM) - IP, ER, H, BB, K." in the report |
| Render.EveryGameInfoRendered | main.py:156-158 | every match-up of every group occurs in the report |
| TvList.ScheduleMatches | main.py:195 | the schedule rows joined to a game are exactly the schedule rows with its id |
| TvList.LeftJoin | main.py:195 | the merged table has at least one row per broadcast row, and every merged row carries the id and flag of a broadcast row |
| TvList.LeftJoinHas | main.py:195 | a broadcast row whose game has a schedule row yields a merged row holding that schedule row's two probable starters |
| TvList.LeftJoinSource | main.py:195 | every merged row comes from a broadcast row and carries its id and flag; its starter cells are missing exactly when the schedule has no row for that game, and otherwise come from one of its schedule rows |
| TvList.LeftJoinOne | main.py:195 | a broadcast row whose game has one schedule row yields exactly one merged row holding both probable starters |
| TvList.TvRows | main.py:196 | a merged row is kept iff it is televised |
| TvList.TvOnTvIff | main.py:195-198 | the televised rows of the merged table are non-empty iff the broadcast table has a televised game |
| TvList.Pitchers | main.py:201-204 | the starter list has two cells per televised row: the home column, then the away column, row by row |
| TvList.PitcherCell | main.py:201-204 | every entry of the starter list is the home or the away cell of a televised row |
| TvList.ListedAsWritten | main.py:210 | the code's `if p` filter lists a text iff it is a non-empty name among the cells, or "nan" when a missing cell is among them |
| TvList.Listed | main.py:210 | the corrected filter lists only non-empty names among the cells |
| TvList.ListedHomeThenAway | main.py:201-210 | both filters list the home starters first, then the away starters |
| TvList.ListedSpec | main.py:210 | the corrected filter lists a name iff it is a non-empty announced starter among the cells |
| TvList.ListedAgreeWithoutNaN | main.py:210 | on cells without missing values, the code's truthiness filter and the corrected filter agree |
| TvList.TvContent | main.py:206-210 | the text opens with the fixed header and a newline |
| TvList.TvContentListsEveryName | main.py:210 | every listed starter has its "NAME - " line in the text |
| TvList.TodayTvListAsWritten | main.py:182-210 | the today branch as written: "no games scheduled" iff the schedule is empty; a failed merge iff the broadcast table is empty; "no TV games" iff no broadcast row is televised |
| TvList.TodayTvList | main.py:182-210 | the same three outcomes for the corrected filter |
| TvList.ListedAreTelevisedProbables | main.py:195-210 | every name in the corrected list is non-empty and is a probable starter of a scheduled game that is televised |
| TvList.TelevisedProbablesListed | main.py:195-210 | every announced starter of a scheduled game that the broadcast table marks as televised is in the corrected list, home and away alike |
| TvList.ListedExactlyTelevisedProbables | main.py:195-210 | the corrected list holds a name iff it is a non-empty announced starter of a scheduled game that the broadcast table marks as televised |
| TvList.MissingGameListsNaN | main.py:195-210 | a televised game absent from the schedule makes the code list "nan - " twice; the corrected list leaves it out |
| TvList.AgreeWhenScheduleComplete | main.py:195-210 | when every broadcast row finds its game in the schedule, the code and the corrected list produce the same outcome |
| TvList.JonesScenario | main.py:201-210 | one televised game with an announced home starter and no away starter gives the header and the single line "A. Jones - " |
| Pipeline.YesterdayReport | main.py:50-167 | "no games" iff no game ids; "no pitcher data" iff every game was skipped; a failed build iff rows exist but the broadcast table is empty; otherwise the report renders the sorted groups of the reshaped rows |
| Pipeline.GenerateYesterday | main.py:45-110 | reading the broadcast table from yesterday's payload and then building the report yields the same outcome as the report over that table; the build fails iff there are rows but the payload lists no game |
| Pipeline.GenerateToday | main.py:182-196 | reading today's broadcast table and then building the list yields the corrected today outcome; the merge fails iff games are scheduled but the payload lists none |
| Pipeline.GenerateTodayAsWritten | main.py:182-210 | reading today's broadcast table and then building the list yields the code's today outcome, NaN entries included; the merge fails iff games are scheduled but the payload lists none |
| Pipeline.EveryRowInReport | main.py:147-167 | every pitcher row that survives the join and the filter has its line and its match-up in the report |
| Pipeline.CancelledLeadsReport | main.py:139-154 | when a cancelled game contributed rows, the report's first group is a Cancelled group and the report opens with the "No Statcast" heading |
| Pipeline.SmithHeading | main.py:147-154 | in the worked example the report opens with the "Statcast Games - TV" heading, because the Cancelled keys that sort first have no rows |
| Pipeline.SmithScenario | main.py:87-167 | one televised Statcast game whose home starter went 6.0 innings: the report contains "J. Smith (NYY) - 6.0 IP, 2 ER, 4 H, 1 BB, 7 K." and "NYY vs. BOS" |

## Left out

- Streamlit calls are not modelled: the page title, warnings, errors, `st.stop`, the success message and the download buttons. Each branch instead returns an outcome value naming the message it would show.
- The HTTP requests, `statsapi` and the JSON decoding are parameters, as listed above. Only the per-game Savant and boxscore calls and the name lookup are modelled as failing (`None`). The date arithmetic of the URLs is not modelled.
- The failures that end the whole page are not modelled: a failed schedule request stops the page with an error (main.py:19-24), and an exception from `statsapi.schedule` (main.py:27) or from `request_yesterday.json()` (main.py:45) is not caught at all. The model takes both payloads and the game list as given.
- Only these exceptions are modelled: the per-game warning-and-continue paths (feed unread, no boxscore, no pitcher rows), the failed name lookup, and the failed join. The join fails with a missing-key error when the broadcast table has no games, which the model shows as `ReportFailed` and `MergeFailed`. Other exceptions are out of scope: malformed JSON, a missing key inside a present boxscore, and a `gamePk` that is missing or of the wrong type.
- JSON `null` values are not modelled. A missing key and an empty value are treated alike wherever the code uses `.get(..., default)`.
- The positional column selections (`iloc`) are modelled by field names. The boxscore field order is an assumption of `statsapi` that the model cannot see. One consequence is not modelled. Suppose the first kept game has no home pitcher rows. Then `pd.concat` (main.py:108) puts the four tag columns first, and the selection at main.py:124 picks `game_info` among its five columns. The assignment at main.py:129 then overwrites that column instead of adding one. The frame ends up with nine columns, so index 9 in the selection at main.py:130 is out of bounds, and the code would show an error where the model renders a report.
- The stat values are kept as display strings. The code never computes with them.
- The unused imports have no behaviour to model: `pybaseball as py` (main.py:2), `json` (main.py:5), `pitching_stats_range` (main.py:6) and `season_game_logs` (main.py:7).

## Findings

| source | as written | input that shows it | evidently intended | confidence | as-written member | corrected member |
|---|---|---|---|---|---|---|
| main.py:195-210 | The left join keeps a televised broadcast row whose game is missing from the schedule. Its probable-starter cells are NaN, and `if p` treats NaN as true, so the list gets the line "nan - " for each column. | broadcast table `[gamePk 7, ON_TV True]`; schedule `[game 8, "A", "B"]` | list only announced starters, never a missing value | not executed | TvList.MissingGameListsNaN | TvList.ListedExactlyTelevisedProbables |
