/** The inner join of the tagged rows with the broadcast table and the
    removal of the boxscore's "Pitchers" placeholder rows. */
module Merge {
  import opened Text
  import opened Schedule
  import opened Tagging

  /** A tagged row after the merge: it gains the matching `ON_TV` flag
      (its `gamePk` equals its `game_id`). */
  datatype JoinedRow = JoinedRow(row: TaggedRow, onTv: bool)

  /** The broadcast rows of one game, in table order. */
  function MatchesOf(table: seq<BroadcastRow>, id: int): (ms: seq<BroadcastRow>)
    ensures forall b :: b in ms ==> b in table && b.gamePk == id
  {
    if table == [] then []
    else (if table[0].gamePk == id then [table[0]] else []) + MatchesOf(table[1..], id)
  }

  /** No game appears twice in the broadcast table. */
  predicate UniqueKeys(table: seq<BroadcastRow>)
  {
    forall i, j :: 0 <= i < j < |table| ==> table[i].gamePk != table[j].gamePk
  }

  /** With unique keys a game has at most one broadcast row. */
  lemma {:induction false} MatchesOfUnique(table: seq<BroadcastRow>, id: int)
    requires UniqueKeys(table)
    ensures (forall j :: 0 <= j < |table| ==> table[j].gamePk != id) ==> MatchesOf(table, id) == []
    ensures forall j :: 0 <= j < |table| && table[j].gamePk == id ==> MatchesOf(table, id) == [table[j]]
  {
    if table != [] {
      MatchesOfUnique(table[1..], id);
      assert forall j :: 1 <= j < |table| ==> table[j] == table[1..][j - 1];
    }
  }

  function JoinOne(r: TaggedRow, ms: seq<BroadcastRow>): seq<JoinedRow>
  {
    seq(|ms|, i requires 0 <= i < |ms| => JoinedRow(r, ms[i].onTv))
  }

  /** `final.merge(on_tv, left_on='game_id', right_on='gamePk', how='inner')`:
      each left row, in order, paired with each of its matches. */
  function InnerJoin(rows: seq<TaggedRow>, table: seq<BroadcastRow>): (out: seq<JoinedRow>)
    ensures forall j :: j in out ==> j.row in rows && BroadcastRow(j.row.gameId, j.onTv) in table
  {
    if rows == [] then []
    else
      var ms := MatchesOf(table, rows[0].gameId);
      assert forall j :: j in JoinOne(rows[0], ms) ==> j.row == rows[0] && BroadcastRow(j.row.gameId, j.onTv) in table by {
        forall j | j in JoinOne(rows[0], ms)
          ensures j.row == rows[0] && BroadcastRow(j.row.gameId, j.onTv) in table
        {
          var i :| 0 <= i < |ms| && JoinOne(rows[0], ms)[i] == j;
          assert ms[i] in ms;
        }
      }
      JoinOne(rows[0], ms) + InnerJoin(rows[1..], table)
  }

  /** The boxscore's team-total rows carry "Pitchers" in their name field. */
  predicate IsPlaceholder(r: JoinedRow)
  {
    HasSubstring(r.row.line.namefield, "Pitchers")
  }

  /** `final[~final['namefield'].str.contains('Pitchers')]` */
  function DropPlaceholders(rows: seq<JoinedRow>): (kept: seq<JoinedRow>)
    ensures forall x :: x in kept <==> x in rows && !IsPlaceholder(x)
    ensures |kept| <= |rows|
  {
    if rows == [] then []
    else (if IsPlaceholder(rows[0]) then [] else [rows[0]]) + DropPlaceholders(rows[1..])
  }

  /** The rows that go on to name resolution. */
  function CleanRows(rows: seq<TaggedRow>, table: seq<BroadcastRow>): seq<JoinedRow>
  {
    DropPlaceholders(InnerJoin(rows, table))
  }

  lemma {:induction false} DropPlaceholdersAppend(a: seq<JoinedRow>, b: seq<JoinedRow>)
    ensures DropPlaceholders(a + b) == DropPlaceholders(a) + DropPlaceholders(b)
  {
    if a == [] {
      assert a + b == b;
    } else {
      assert (a + b)[1..] == a[1..] + b;
      DropPlaceholdersAppend(a[1..], b);
    }
  }

  /** Join and filter act on each tagged row separately and keep the rows'
      relative order. */
  lemma {:induction false} CleanRowsAppend(a: seq<TaggedRow>, b: seq<TaggedRow>, table: seq<BroadcastRow>)
    ensures CleanRows(a + b, table) == CleanRows(a, table) + CleanRows(b, table)
  {
    InnerJoinAppend(a, b, table);
    DropPlaceholdersAppend(InnerJoin(a, table), InnerJoin(b, table));
  }

  lemma {:induction false} InnerJoinAppend(a: seq<TaggedRow>, b: seq<TaggedRow>, table: seq<BroadcastRow>)
    ensures InnerJoin(a + b, table) == InnerJoin(a, table) + InnerJoin(b, table)
  {
    if a == [] {
      assert a + b == b;
    } else {
      assert (a + b)[1..] == a[1..] + b;
      InnerJoinAppend(a[1..], b, table);
    }
  }

  /** With one broadcast row per game, a tagged row survives the join and the
      filter exactly when its game is in the table and it is not a
      placeholder, and then it carries that game's `ON_TV` flag. */
  lemma CleanRowsSingle(r: TaggedRow, table: seq<BroadcastRow>)
    requires UniqueKeys(table)
    ensures HasSubstring(r.line.namefield, "Pitchers") ==> CleanRows([r], table) == []
    ensures (forall j :: 0 <= j < |table| ==> table[j].gamePk != r.gameId) ==> CleanRows([r], table) == []
    ensures forall j :: 0 <= j < |table| && table[j].gamePk == r.gameId && !HasSubstring(r.line.namefield, "Pitchers") ==>
              CleanRows([r], table) == [JoinedRow(r, table[j].onTv)]
  {
    MatchesOfUnique(table, r.gameId);
    assert [r][1..] == [];
    assert InnerJoin([r], table) == JoinOne(r, MatchesOf(table, r.gameId));
    forall j | 0 <= j < |table| && table[j].gamePk == r.gameId
      ensures InnerJoin([r], table) == [JoinedRow(r, table[j].onTv)]
    {
      assert JoinOne(r, [table[j]]) == [JoinedRow(r, table[j].onTv)];
    }
    var ij := InnerJoin([r], table);
    if |ij| == 1 {
      assert ij[1..] == [];
      assert DropPlaceholders(ij) == (if IsPlaceholder(ij[0]) then [] else [ij[0]]) + DropPlaceholders([]);
    }
  }

  /** The game has a row in the broadcast table. */
  ghost predicate Scheduled(table: seq<BroadcastRow>, id: int)
  {
    exists j :: 0 <= j < |table| && table[j].gamePk == id
  }

  /** The `ON_TV` flag of a scheduled game. */
  ghost function FlagOf(table: seq<BroadcastRow>, id: int): bool
    requires Scheduled(table, id)
  {
    var j :| 0 <= j < |table| && table[j].gamePk == id; table[j].onTv
  }

  /** Reference selection: the tagged rows whose game is scheduled and whose
      name field is not a placeholder, in their original order, each with its
      game's flag. */
  ghost function SelectRows(rows: seq<TaggedRow>, table: seq<BroadcastRow>): seq<JoinedRow>
  {
    if rows == [] then []
    else
      (if Scheduled(table, rows[0].gameId) && !HasSubstring(rows[0].line.namefield, "Pitchers")
       then [JoinedRow(rows[0], FlagOf(table, rows[0].gameId))] else [])
      + SelectRows(rows[1..], table)
  }

  /** With one broadcast row per game, join-then-filter is exactly the
      order-preserving selection. */
  lemma {:induction false} CleanRowsSelects(rows: seq<TaggedRow>, table: seq<BroadcastRow>)
    requires UniqueKeys(table)
    ensures CleanRows(rows, table) == SelectRows(rows, table)
  {
    if rows != [] {
      assert rows == [rows[0]] + rows[1..];
      CleanRowsAppend([rows[0]], rows[1..], table);
      CleanRowsSingle(rows[0], table);
      CleanRowsSelects(rows[1..], table);
    }
  }
}
