/** Name resolution through the player lookup and the reshaping of each
    row into the report's columns. */
module Names {
  import opened Wrappers
  import opened Text
  import opened Savant
  import opened Merge

  /** What `statsapi.player_stat_data` returns that the script reads. */
  datatype PlayerName = PlayerName(first: string, last: string)

  /** The sentinel used when a lookup fails. */
  const Unknown: string := "Unknown"

  /** `first_name + ' ' + last_name`, or "Unknown" when the lookup raised
      (modelled as None). */
  function FullName(p: Option<PlayerName>): string
  {
    match p
    case Some(n) => n.first + " " + n.last
    case None => Unknown
  }

  /** The `pitcher_names` loop: one lookup per filtered row, in row order.
      The lookup is a parameter standing for the remote player service. */
  function ResolveNames(rows: seq<JoinedRow>, lookup: int -> Option<PlayerName>): (names: seq<string>)
    ensures |names| == |rows|
    ensures forall i :: 0 <= i < |rows| ==>
              names[i] == (match lookup(rows[i].row.line.personId)
                           case Some(n) => n.first + " " + n.last
                           case None => "Unknown")
  {
    if rows == [] then []
    else [FullName(lookup(rows[0].row.line.personId))] + ResolveNames(rows[1..], lookup)
  }

  /** The lookup with one person id made to fail. */
  function FailFor(lookup: int -> Option<PlayerName>, id: int): int -> Option<PlayerName>
  {
    x => if x == id then None else lookup(x)
  }

  /** A failing lookup turns exactly the rows of that person into "Unknown";
      every other row keeps its name. */
  lemma {:induction false} FailureIsLocal(rows: seq<JoinedRow>, lookup: int -> Option<PlayerName>, id: int)
    ensures forall i :: 0 <= i < |rows| ==>
              ResolveNames(rows, FailFor(lookup, id))[i]
              == (if rows[i].row.line.personId == id then "Unknown" else ResolveNames(rows, lookup)[i])
  {
  }

  /** One row of `final_df`: name, team, the five stats suffixed with their
      column label, and the grouping columns. */
  datatype ReportRow = ReportRow(
    fullName: string, team: string,
    ip: string, er: string, h: string, bb: string, k: string,
    status: StatcastStatus, onTv: bool, gameInfo: string)

  /** `x + ' ' + x.name.upper()` for a stat value and its column name. */
  function Labelled(value: string, column: string): string
  {
    value + " " + Upper(column)
  }

  function ToReportRow(j: JoinedRow, name: string): ReportRow
  {
    var l := j.row.line;
    ReportRow(name, j.row.team,
              Labelled(l.ip, "ip"), Labelled(l.er, "er"), Labelled(l.h, "h"),
              Labelled(l.bb, "bb"), Labelled(l.k, "k"),
              j.row.status, j.onTv, j.row.gameInfo)
  }

  /** Attaches the resolved names and reshapes every row: each stat token
      gets its upper-cased label, the other columns pass through. */
  function Reshape(rows: seq<JoinedRow>, names: seq<string>): (out: seq<ReportRow>)
    requires |names| == |rows|
    ensures |out| == |rows|
    ensures forall i :: 0 <= i < |rows| ==>
              var l := rows[i].row.line;
              && out[i].fullName == names[i]
              && out[i].team == rows[i].row.team
              && out[i].ip == l.ip + " IP" && out[i].er == l.er + " ER"
              && out[i].h == l.h + " H" && out[i].bb == l.bb + " BB"
              && out[i].k == l.k + " K"
              && out[i].status == rows[i].row.status
              && out[i].onTv == rows[i].onTv
              && out[i].gameInfo == rows[i].row.gameInfo
  {
    assert Upper("ip") == "IP" && Upper("er") == "ER" && Upper("h") == "H"
        && Upper("bb") == "BB" && Upper("k") == "K";
    seq(|rows|, i requires 0 <= i < |rows| => ToReportRow(rows[i], names[i]))
  }
}
