/** The Statcast status of a game, read from its Baseball Savant feed. */
module Savant {
  import opened Wrappers

  /** `stats['pitchVelocity']`; the entries of `topPitches` are opaque. */
  datatype PitchVelocity = PitchVelocity(topPitches: Option<seq<string>>)

  /** `scoreboard['stats']` */
  datatype ScoreStats = ScoreStats(pitchVelocity: Option<PitchVelocity>)

  /** `response_json['scoreboard']` */
  datatype Scoreboard = Scoreboard(stats: Option<ScoreStats>)

  /** The decoded feed; every key the script reads may be missing. */
  datatype SavantFeed = SavantFeed(gameStatusCode: Option<string>, scoreboard: Option<Scoreboard>)

  datatype StatcastStatus = StatcastGames | NoStatcast | Cancelled

  /** The status string the script stores in `statcast_status`. */
  function Label(s: StatcastStatus): string
  {
    match s
    case StatcastGames => "Statcast Games"
    case NoStatcast => "No Statcast"
    case Cancelled => "Cancelled"
  }

  /** The `topPitches` value reached through `.get(..., {})` at each level;
      a missing key anywhere gives the empty list, which is just as falsy. */
  function TopPitches(f: SavantFeed): seq<string>
  {
    match f.scoreboard
    case None => []
    case Some(sb) =>
      match sb.stats
      case None => []
      case Some(st) =>
        match st.pitchVelocity
        case None => []
        case Some(pv) =>
          match pv.topPitches
          case None => []
          case Some(tp) => tp
  }

  /** The feed carries a non-empty `topPitches` list. */
  ghost predicate Tracked(f: SavantFeed)
  {
    && f.scoreboard.Some?
    && f.scoreboard.value.stats.Some?
    && f.scoreboard.value.stats.value.pitchVelocity.Some?
    && f.scoreboard.value.stats.value.pitchVelocity.value.topPitches.Some?
    && f.scoreboard.value.stats.value.pitchVelocity.value.topPitches.value != []
  }

  /** The status rule: the cancelled code wins over any pitch data; otherwise
      a game is a Statcast game exactly when it has top pitches. */
  function ClassifyStatus(f: SavantFeed): (s: StatcastStatus)
    ensures s == Cancelled <==> f.gameStatusCode == Some("C")
    ensures s == StatcastGames <==> f.gameStatusCode != Some("C") && Tracked(f)
    ensures s == NoStatcast <==> f.gameStatusCode != Some("C") && !Tracked(f)
  {
    if f.gameStatusCode != Some("C") then
      if TopPitches(f) != [] then StatcastGames else NoStatcast
    else
      Cancelled
  }
}
