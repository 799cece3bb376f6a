/** `final_df.groupby(['statcast_status', 'on_tv'])` followed by the stable
    `sorted(..., key=header_order_map.get(key, -1))`. */
module Grouping {
  import opened Savant
  import opened Names

  datatype GroupKey = GroupKey(status: StatcastStatus, onTv: bool)

  /** One group: its key and its rows in table order. */
  datatype Group = Group(key: GroupKey, members: seq<ReportRow>)

  function KeyOf(r: ReportRow): GroupKey
  {
    GroupKey(r.status, r.onTv)
  }

  // ---------------------------------------------------------------------
  // The group-by

  /** Python's string ordering: the strings first differ at a position
      where `a` has the smaller code point, or `a` is a proper prefix of `b`. */
  predicate LexLess(a: string, b: string)
  {
    || (exists k :: 0 <= k < |a| && k < |b| && a[..k] == b[..k] && a[k] < b[k])
    || (|a| < |b| && a == b[..|a|])
  }

  /** The order pandas sorts group keys in: status label, then False < True. */
  predicate KeyLess(a: GroupKey, b: GroupKey)
  {
    LexLess(Label(a.status), Label(b.status)) || (a.status == b.status && !a.onTv && b.onTv)
  }

  /** Every possible key, in the order the group-by yields them. */
  const KeyOrder: seq<GroupKey> := [
    GroupKey(Cancelled, false), GroupKey(Cancelled, true),
    GroupKey(NoStatcast, false), GroupKey(NoStatcast, true),
    GroupKey(StatcastGames, false), GroupKey(StatcastGames, true)]

  /** KeyOrder is strictly increasing in pandas' key order. */
  lemma KeyOrderSorted()
    ensures forall i :: 0 <= i < |KeyOrder| - 1 ==> KeyLess(KeyOrder[i], KeyOrder[i + 1])
  {
    forall i | 0 <= i < |KeyOrder| - 1
      ensures KeyLess(KeyOrder[i], KeyOrder[i + 1])
    {
      if i == 0 {
        FalseBeforeTrue(Cancelled);
      } else if i == 1 {
        LabelOrder(Cancelled, NoStatcast);
      } else if i == 2 {
        FalseBeforeTrue(NoStatcast);
      } else if i == 3 {
        LabelOrder(NoStatcast, StatcastGames);
      } else {
        FalseBeforeTrue(StatcastGames);
      }
    }
  }

  /** Within one status, the False key sorts first. */
  lemma FalseBeforeTrue(s: StatcastStatus)
    ensures KeyLess(GroupKey(s, false), GroupKey(s, true))
  {
  }

  /** "Cancelled" < "No Statcast" < "Statcast Games", by their first letters. */
  lemma LabelOrder(a: StatcastStatus, b: StatcastStatus)
    requires (a, b) == (Cancelled, NoStatcast) || (a, b) == (NoStatcast, StatcastGames)
    ensures KeyLess(GroupKey(a, true), GroupKey(b, false))
  {
    if a == Cancelled {
      LexLessByHead("Cancelled", "No Statcast");
    } else {
      LexLessByHead("No Statcast", "Statcast Games");
    }
  }

  /** Strings that differ in their first character compare by it. */
  lemma LexLessByHead(a: string, b: string)
    requires a != [] && b != [] && a[0] < b[0]
    ensures LexLess(a, b)
  {
    assert a[..0] == b[..0];
  }

  /** KeyOrder lists every key, each once. */
  lemma KeyOrderComplete()
    ensures forall k: GroupKey :: k in KeyOrder
    ensures DistinctKeys(KeyOrder)
  {
    forall k: GroupKey
      ensures k in KeyOrder
    {
      match k.status
      case Cancelled =>
      case NoStatcast =>
      case StatcastGames =>
    }
  }

  /** The rows with key `k`, in table order. */
  function MembersOf(rows: seq<ReportRow>, k: GroupKey): seq<ReportRow>
  {
    if rows == [] then []
    else (if KeyOf(rows[0]) == k then [rows[0]] else []) + MembersOf(rows[1..], k)
  }

  lemma {:induction false} MembersOfSpec(rows: seq<ReportRow>, k: GroupKey)
    ensures forall r :: r in MembersOf(rows, k) <==> r in rows && KeyOf(r) == k
  {
    if rows != [] {
      MembersOfSpec(rows[1..], k);
      assert rows == [rows[0]] + rows[1..];
    }
  }

  /** The non-empty groups of the keys `ks`, in the order of `ks`. */
  function GroupsFor(rows: seq<ReportRow>, ks: seq<GroupKey>): seq<Group>
  {
    if ks == [] then []
    else
      (if MembersOf(rows, ks[0]) != [] then [Group(ks[0], MembersOf(rows, ks[0]))] else [])
      + GroupsFor(rows, ks[1..])
  }

  lemma {:induction false} GroupsForSpec(rows: seq<ReportRow>, ks: seq<GroupKey>)
    ensures forall g :: g in GroupsFor(rows, ks) ==>
              g.key in ks && g.members == MembersOf(rows, g.key) && g.members != []
  {
    if ks != [] {
      GroupsForSpec(rows, ks[1..]);
    }
  }

  predicate DistinctKeys(ks: seq<GroupKey>)
  {
    forall i, j :: 0 <= i < j < |ks| ==> ks[i] != ks[j]
  }

  /** No two groups share a key. */
  predicate DistinctGroups(gs: seq<Group>)
  {
    forall i, j :: 0 <= i < j < |gs| ==> gs[i].key != gs[j].key
  }

  lemma {:induction false} GroupsForDistinct(rows: seq<ReportRow>, ks: seq<GroupKey>)
    requires DistinctKeys(ks)
    ensures DistinctGroups(GroupsFor(rows, ks))
  {
    if ks != [] {
      var rest := GroupsFor(rows, ks[1..]);
      GroupsForDistinct(rows, ks[1..]);
      GroupsForSpec(rows, ks[1..]);
      assert ks[0] !in ks[1..];
      if MembersOf(rows, ks[0]) != [] {
        var gs := GroupsFor(rows, ks);
        assert gs == [Group(ks[0], MembersOf(rows, ks[0]))] + rest;
        forall i, j | 0 <= i < j < |gs|
          ensures gs[i].key != gs[j].key
        {
          assert gs[j] == rest[j - 1];
          assert rest[j - 1] in rest;
          if i > 0 {
            assert gs[i] == rest[i - 1];
          }
        }
      } else {
        assert GroupsFor(rows, ks) == [] + rest;
      }
    }
  }

  lemma GroupsForCons(rows: seq<ReportRow>, k: GroupKey, ks: seq<GroupKey>)
    ensures GroupsFor(rows, [k] + ks)
            == (if MembersOf(rows, k) != [] then [Group(k, MembersOf(rows, k))] else []) + GroupsFor(rows, ks)
  {
    assert ([k] + ks)[1..] == ks;
  }

  lemma {:induction false} GroupsForCovers(rows: seq<ReportRow>, ks: seq<GroupKey>, r: ReportRow)
    requires r in rows && KeyOf(r) in ks
    ensures exists g :: g in GroupsFor(rows, ks) && g.key == KeyOf(r)
  {
    if ks[0] == KeyOf(r) {
      MembersOfSpec(rows, ks[0]);
      assert r in MembersOf(rows, ks[0]);
      assert Group(ks[0], MembersOf(rows, ks[0])) in GroupsFor(rows, ks);
    } else {
      GroupsForCovers(rows, ks[1..], r);
      var g :| g in GroupsFor(rows, ks[1..]) && g.key == KeyOf(r);
      assert g in GroupsFor(rows, ks);
    }
  }

  /** The group-by: one group per key present, keys distinct, every row in
      the group of its own key, members in table order. */
  function GroupBy(rows: seq<ReportRow>): (gs: seq<Group>)
    ensures forall g :: g in gs ==> g.members == MembersOf(rows, g.key) && g.members != []
    ensures DistinctGroups(gs)
    ensures forall r :: r in rows ==> exists g :: g in gs && g.key == KeyOf(r)
  {
    KeyOrderComplete();
    GroupsForSpec(rows, KeyOrder);
    GroupsForDistinct(rows, KeyOrder);
    assert forall r :: r in rows ==> exists g :: g in GroupsFor(rows, KeyOrder) && g.key == KeyOf(r) by {
      forall r | r in rows
        ensures exists g :: g in GroupsFor(rows, KeyOrder) && g.key == KeyOf(r)
      {
        GroupsForCovers(rows, KeyOrder, r);
      }
    }
    GroupsFor(rows, KeyOrder)
  }

  /** All members of all groups, group after group. */
  function AllMembers(gs: seq<Group>): seq<ReportRow>
  {
    if gs == [] then [] else gs[0].members + AllMembers(gs[1..])
  }

  /** The rows of the keys `ks`, key after key, as a multiset. */
  ghost function MembersBag(rows: seq<ReportRow>, ks: seq<GroupKey>): multiset<ReportRow>
  {
    if ks == [] then multiset{} else multiset(MembersOf(rows, ks[0])) + MembersBag(rows, ks[1..])
  }

  lemma {:induction false} AllMembersBag(rows: seq<ReportRow>, ks: seq<GroupKey>)
    ensures multiset(AllMembers(GroupsFor(rows, ks))) == MembersBag(rows, ks)
  {
    if ks != [] {
      AllMembersBag(rows, ks[1..]);
      var rest := GroupsFor(rows, ks[1..]);
      if MembersOf(rows, ks[0]) != [] {
        var g := Group(ks[0], MembersOf(rows, ks[0]));
        assert GroupsFor(rows, ks) == [g] + rest;
        assert ([g] + rest)[1..] == rest;
        assert AllMembers([g] + rest) == g.members + AllMembers(rest);
      } else {
        assert GroupsFor(rows, ks) == [] + rest;
        assert [] + rest == rest;
      }
    }
  }

  lemma {:induction false} MembersBagStep(rows: seq<ReportRow>, ks: seq<GroupKey>)
    requires rows != []
    requires DistinctKeys(ks)
    ensures MembersBag(rows, ks)
            == MembersBag(rows[1..], ks) + (if KeyOf(rows[0]) in ks then multiset{rows[0]} else multiset{})
  {
    if ks != [] {
      MembersBagStep(rows, ks[1..]);
      assert ks[0] !in ks[1..];
    }
  }

  /** Distinct keys that cover every row collect every row exactly once. */
  lemma {:induction false} MembersBagCovers(rows: seq<ReportRow>, ks: seq<GroupKey>)
    requires DistinctKeys(ks)
    requires forall r :: r in rows ==> KeyOf(r) in ks
    ensures MembersBag(rows, ks) == multiset(rows)
  {
    if rows == [] {
      MembersBagEmpty(ks);
    } else {
      var h, t := rows[0], rows[1..];
      assert rows == [h] + t;
      assert h in rows;
      forall r | r in t
        ensures KeyOf(r) in ks
      {
        assert r in rows;
      }
      MembersBagStep(rows, ks);
      MembersBagCovers(t, ks);
      assert MembersBag(rows, ks) == multiset(t) + multiset{h};
      assert multiset(rows) == multiset([h]) + multiset(t);
    }
  }

  lemma MembersBagAll(rows: seq<ReportRow>)
    ensures MembersBag(rows, KeyOrder) == multiset(rows)
  {
    KeyOrderComplete();
    MembersBagCovers(rows, KeyOrder);
  }

  lemma {:induction false} MembersBagEmpty(ks: seq<GroupKey>)
    ensures MembersBag([], ks) == multiset{}
  {
    if ks != [] {
      MembersBagEmpty(ks[1..]);
    }
  }

  /** Every row lands in exactly one group: the groups' members are the
      table's rows, each as often as it occurs. */
  lemma GroupByPartition(rows: seq<ReportRow>)
    ensures multiset(AllMembers(GroupBy(rows))) == multiset(rows)
  {
    AllMembersBag(rows, KeyOrder);
    MembersBagAll(rows);
  }

  // ---------------------------------------------------------------------
  // The stable sort by priority

  /** The script's `header_order` list. */
  const HeaderOrder: seq<GroupKey> := [
    GroupKey(StatcastGames, true), GroupKey(StatcastGames, false),
    GroupKey(NoStatcast, true), GroupKey(NoStatcast, false)]

  /** Position of `k` in `ks`, or -1 when absent (`.get(key, -1)`). */
  function IndexOf(ks: seq<GroupKey>, k: GroupKey): (i: int)
    ensures -1 <= i < |ks|
    ensures i == -1 <==> k !in ks
    ensures 0 <= i ==> ks[i] == k
  {
    if ks == [] then -1
    else if ks[0] == k then 0
    else
      var i := IndexOf(ks[1..], k);
      if i == -1 then -1 else i + 1
  }

  /** The sort key `header_order_map.get(key, -1)`, spelled out per key:
      the listed keys rank 0 to 3 and Cancelled keys, which the table does
      not list, rank -1. */
  function Priority(k: GroupKey): (p: int)
    ensures -1 <= p < |HeaderOrder|
    ensures p == -1 <==> k.status == Cancelled
  {
    match k.status
    case Cancelled => -1
    case StatcastGames => if k.onTv then 0 else 1
    case NoStatcast => if k.onTv then 2 else 3
  }

  /** The sort key is the key's position in `header_order`, and -1 exactly
      for the keys the table leaves out, which are the Cancelled ones. */
  lemma PriorityIsHeaderPosition(k: GroupKey)
    ensures Priority(k) == IndexOf(HeaderOrder, k)
    ensures Priority(k) == -1 <==> k.status == Cancelled
    ensures 0 <= Priority(k) ==> HeaderOrder[Priority(k)] == k
  {
    HeaderOrderListsTracked(k);
    var i := IndexOf(HeaderOrder, k);
    if i != -1 {
      assert HeaderOrder[i] == k;
      assert i == Priority(k) by {
        if i == 0 {} else if i == 1 {} else if i == 2 {} else {}
      }
    }
  }

  lemma HeaderOrderListsTracked(k: GroupKey)
    ensures k in HeaderOrder <==> k.status != Cancelled
  {
    match k.status
    case Cancelled =>
    case NoStatcast =>
    case StatcastGames =>
  }

  predicate SortedByPriority(gs: seq<Group>)
  {
    forall i, j :: 0 <= i < j < |gs| ==> Priority(gs[i].key) <= Priority(gs[j].key)
  }

  lemma SortedTail(gs: seq<Group>)
    requires gs != [] && SortedByPriority(gs)
    ensures SortedByPriority(gs[1..])
  {
    forall i, j | 0 <= i < j < |gs| - 1
      ensures Priority(gs[1..][i].key) <= Priority(gs[1..][j].key)
    {
      assert gs[1..][i] == gs[i + 1] && gs[1..][j] == gs[j + 1];
    }
  }

  lemma SortedCons(g: Group, gs: seq<Group>)
    requires SortedByPriority(gs)
    requires forall x :: x in gs ==> Priority(g.key) <= Priority(x.key)
    ensures SortedByPriority([g] + gs)
  {
    var r := [g] + gs;
    forall i, j | 0 <= i < j < |r|
      ensures Priority(r[i].key) <= Priority(r[j].key)
    {
      assert r[j] == gs[j - 1];
      assert gs[j - 1] in gs;
      if i > 0 {
        assert r[i] == gs[i - 1];
      }
    }
  }

  /** The groups of rank `p`, in order. */
  function OfRank(gs: seq<Group>, p: int): seq<Group>
  {
    if gs == [] then []
    else (if Priority(gs[0].key) == p then [gs[0]] else []) + OfRank(gs[1..], p)
  }

  lemma {:induction false} OfRankSpec(gs: seq<Group>, p: int)
    ensures forall g :: g in OfRank(gs, p) <==> g in gs && Priority(g.key) == p
  {
    if gs != [] {
      OfRankSpec(gs[1..], p);
      assert gs == [gs[0]] + gs[1..];
    }
  }

  lemma OfRankCons(g: Group, gs: seq<Group>, p: int)
    ensures OfRank([g] + gs, p) == (if Priority(g.key) == p then [g] else []) + OfRank(gs, p)
  {
    assert ([g] + gs)[1..] == gs;
  }

  lemma {:induction false} OfRankAppend(a: seq<Group>, b: seq<Group>, p: int)
    ensures OfRank(a + b, p) == OfRank(a, p) + OfRank(b, p)
  {
    if a == [] {
      assert a + b == b;
    } else {
      var h, t := a[0], a[1..];
      assert a == [h] + t;
      assert a + b == [h] + (t + b);
      OfRankCons(h, t + b, p);
      OfRankCons(h, t, p);
      OfRankAppend(t, b, p);
      var f := if Priority(h.key) == p then [h] else [];
      assert f + (OfRank(t, p) + OfRank(b, p)) == (f + OfRank(t, p)) + OfRank(b, p);
    }
  }

  /** Inserts `g` before the first group whose rank is not smaller. */
  function Insert(g: Group, gs: seq<Group>): seq<Group>
  {
    if gs == [] || Priority(g.key) <= Priority(gs[0].key) then [g] + gs
    else [gs[0]] + Insert(g, gs[1..])
  }

  lemma {:induction false} InsertPerm(g: Group, gs: seq<Group>)
    ensures multiset(Insert(g, gs)) == multiset([g] + gs)
  {
    if !(gs == [] || Priority(g.key) <= Priority(gs[0].key)) {
      InsertPerm(g, gs[1..]);
      assert gs == [gs[0]] + gs[1..];
      assert multiset([g] + gs) == multiset([gs[0]]) + multiset([g] + gs[1..]);
    }
  }

  lemma {:induction false} InsertSorted(g: Group, gs: seq<Group>)
    requires SortedByPriority(gs)
    ensures SortedByPriority(Insert(g, gs))
  {
    if gs == [] || Priority(g.key) <= Priority(gs[0].key) {
      forall x | x in gs
        ensures Priority(g.key) <= Priority(x.key)
      {
        var k :| 0 <= k < |gs| && gs[k] == x;
      }
      SortedCons(g, gs);
    } else {
      SortedTail(gs);
      InsertSorted(g, gs[1..]);
      InsertPerm(g, gs[1..]);
      var t := Insert(g, gs[1..]);
      forall x | x in t
        ensures Priority(gs[0].key) <= Priority(x.key)
      {
        assert x in multiset([g] + gs[1..]);
        assert x in [g] + gs[1..];
        if x != g {
          var k :| 0 <= k < |gs[1..]| && gs[1..][k] == x;
          assert gs[k + 1] == x;
        }
      }
      SortedCons(gs[0], t);
    }
  }

  /** Two groups of different ranks can trade places without changing the
      groups of any one rank. */
  lemma OfRankSwap(h: Group, g: Group, t: seq<Group>, p: int)
    requires Priority(h.key) < Priority(g.key)
    ensures OfRank([h] + ([g] + t), p) == OfRank([g] + ([h] + t), p)
  {
    OfRankCons(h, [g] + t, p);
    OfRankCons(g, t, p);
    OfRankCons(g, [h] + t, p);
    OfRankCons(h, t, p);
    var r := OfRank(t, p);
    if Priority(h.key) == p {
      assert OfRank([h] + ([g] + t), p) == [h] + r;
      assert OfRank([g] + ([h] + t), p) == [] + ([h] + r);
    } else if Priority(g.key) == p {
      assert OfRank([h] + ([g] + t), p) == [] + ([g] + r);
      assert OfRank([g] + ([h] + t), p) == [g] + r;
    } else {
      assert OfRank([h] + ([g] + t), p) == r;
      assert OfRank([g] + ([h] + t), p) == r;
    }
  }

  lemma {:induction false} InsertRank(g: Group, gs: seq<Group>, p: int)
    ensures OfRank(Insert(g, gs), p) == OfRank([g] + gs, p)
  {
    if !(gs == [] || Priority(g.key) <= Priority(gs[0].key)) {
      var h, t := gs[0], gs[1..];
      assert gs == [h] + t;
      calc {
        OfRank(Insert(g, gs), p);
        OfRank([h] + Insert(g, t), p);
        { OfRankCons(h, Insert(g, t), p); InsertRank(g, t, p); OfRankCons(h, [g] + t, p); }
        OfRank([h] + ([g] + t), p);
        { OfRankSwap(h, g, t, p); }
        OfRank([g] + gs, p);
      }
    }
  }

  /** Python's `sorted`: ordered by priority, a permutation of its input,
      and stable: the groups of each rank keep their input order. */
  function SortGroups(gs: seq<Group>): (r: seq<Group>)
    ensures SortedByPriority(r)
    ensures multiset(r) == multiset(gs)
    ensures forall p :: OfRank(r, p) == OfRank(gs, p)
  {
    if gs == [] then []
    else
      var t := SortGroups(gs[1..]);
      InsertSorted(gs[0], t);
      InsertPerm(gs[0], t);
      assert gs == [gs[0]] + gs[1..];
      assert forall p :: OfRank(Insert(gs[0], t), p) == OfRank(gs, p) by {
        forall p
          ensures OfRank(Insert(gs[0], t), p) == OfRank(gs, p)
        {
          InsertRank(gs[0], t, p);
          OfRankCons(gs[0], t, p);
          OfRankCons(gs[0], gs[1..], p);
        }
      }
      Insert(gs[0], t)
  }

  /** The first group of a sequence heads the groups of its rank. */
  lemma OfRankHead(a: seq<Group>)
    requires a != []
    ensures OfRank(a, Priority(a[0].key)) != []
    ensures OfRank(a, Priority(a[0].key))[0] == a[0]
  {
  }

  /** In a priority-sorted sequence the first group has the least rank. */
  lemma SortedFirstLeast(a: seq<Group>, g: Group)
    requires SortedByPriority(a) && g in a
    ensures Priority(a[0].key) <= Priority(g.key)
  {
    var i :| 0 <= i < |a| && a[i] == g;
    if i > 0 {
      assert Priority(a[0].key) <= Priority(a[i].key);
    }
  }

  /** Two priority-sorted, non-empty sequences with the same groups of each
      rank start with the same group. */
  lemma {:induction false} SortedHeadsAgree(a: seq<Group>, b: seq<Group>)
    requires a != [] && b != []
    requires SortedByPriority(a) && SortedByPriority(b)
    requires forall p :: OfRank(a, p) == OfRank(b, p)
    ensures a[0] == b[0]
  {
    var p := Priority(a[0].key);
    var q := Priority(b[0].key);
    OfRankSpec(a, p);
    OfRankSpec(b, q);
    OfRankHead(a);
    OfRankHead(b);
    assert OfRank(a, p) == OfRank(b, p) && OfRank(a, q) == OfRank(b, q);
    OfRankSpec(b, p);
    OfRankSpec(a, q);
    SortedFirstLeast(b, a[0]);
    SortedFirstLeast(a, b[0]);
  }

  /** A group in `b` shows up among the groups of its rank in `a`. */
  lemma NonEmptyAgree(a: seq<Group>, b: seq<Group>)
    requires forall p :: OfRank(a, p) == OfRank(b, p)
    ensures b != [] ==> a != []
  {
    if b != [] {
      var p := Priority(b[0].key);
      OfRankSpec(b, p);
      assert b[0] in OfRank(a, p);
    }
  }

  /** A priority-sorted sequence is determined by its groups of each rank. */
  lemma {:induction false} SortedUnique(a: seq<Group>, b: seq<Group>)
    requires SortedByPriority(a) && SortedByPriority(b)
    requires forall p :: OfRank(a, p) == OfRank(b, p)
    ensures a == b
    decreases |a| + |b|
  {
    NonEmptyAgree(a, b);
    NonEmptyAgree(b, a);
    if a != [] {
      SortedHeadsAgree(a, b);
      assert a == [a[0]] + a[1..];
      assert b == [b[0]] + b[1..];
      forall r
        ensures OfRank(a[1..], r) == OfRank(b[1..], r)
      {
        OfRankCons(a[0], a[1..], r);
        OfRankCons(b[0], b[1..], r);
        var h := if Priority(a[0].key) == r then [a[0]] else [];
        assert OfRank(a, r) == h + OfRank(a[1..], r);
        assert OfRank(b, r) == h + OfRank(b[1..], r);
        assert OfRank(a[1..], r) == OfRank(a, r)[|h|..];
        assert OfRank(b[1..], r) == OfRank(b, r)[|h|..];
      }
      SortedTail(a);
      SortedTail(b);
      SortedUnique(a[1..], b[1..]);
    }
  }

  // ---------------------------------------------------------------------
  // The resulting order

  /** The order groups come out in: both Cancelled groups first (rank -1,
      False before True as the group-by left them), then the header order. */
  const ReportOrder: seq<GroupKey> := [
    GroupKey(Cancelled, false), GroupKey(Cancelled, true),
    GroupKey(StatcastGames, true), GroupKey(StatcastGames, false),
    GroupKey(NoStatcast, true), GroupKey(NoStatcast, false)]

  /** The keys of rank `p`, in order. */
  function KeysOfRank(ks: seq<GroupKey>, p: int): seq<GroupKey>
  {
    if ks == [] then [] else (if Priority(ks[0]) == p then [ks[0]] else []) + KeysOfRank(ks[1..], p)
  }

  lemma {:induction false} OfRankGroupsFor(rows: seq<ReportRow>, ks: seq<GroupKey>, p: int)
    ensures OfRank(GroupsFor(rows, ks), p) == GroupsFor(rows, KeysOfRank(ks, p))
  {
    if ks != [] {
      var k := ks[0];
      var rest := GroupsFor(rows, ks[1..]);
      var kr := KeysOfRank(ks[1..], p);
      OfRankGroupsFor(rows, ks[1..], p);
      assert ks == [k] + ks[1..];
      KeysOfRankCons(k, ks[1..], p);
      var m := MembersOf(rows, k);
      var g := Group(k, m);
      if Priority(k) == p {
        assert KeysOfRank(ks, p) == [k] + kr;
        GroupsForCons(rows, k, kr);
        if m != [] {
          assert GroupsFor(rows, ks) == [g] + rest;
          OfRankCons(g, rest, p);
        } else {
          assert GroupsFor(rows, ks) == rest;
          assert GroupsFor(rows, [k] + kr) == GroupsFor(rows, kr);
        }
      } else {
        assert KeysOfRank(ks, p) == kr;
        if m != [] {
          assert GroupsFor(rows, ks) == [g] + rest;
          OfRankCons(g, rest, p);
          assert OfRank([g] + rest, p) == OfRank(rest, p);
        } else {
          assert GroupsFor(rows, ks) == rest;
        }
      }
    }
  }

  lemma {:induction false} GroupsForSorted(rows: seq<ReportRow>, ks: seq<GroupKey>)
    requires forall i, j :: 0 <= i < j < |ks| ==> Priority(ks[i]) <= Priority(ks[j])
    ensures SortedByPriority(GroupsFor(rows, ks))
  {
    if ks != [] {
      var rest := GroupsFor(rows, ks[1..]);
      GroupsForSorted(rows, ks[1..]);
      GroupsForSpec(rows, ks[1..]);
      var m := MembersOf(rows, ks[0]);
      if m != [] {
        forall g | g in rest
          ensures Priority(ks[0]) <= Priority(g.key)
        {
          var k :| 0 <= k < |ks[1..]| && ks[1..][k] == g.key;
          assert ks[k + 1] == g.key;
        }
        SortedCons(Group(ks[0], m), rest);
      } else {
        assert GroupsFor(rows, ks) == [] + rest;
      }
    }
  }

  /** A key on its own if it has rank `p`. */
  function KeyIfRank(k: GroupKey, p: int): seq<GroupKey>
  {
    if Priority(k) == p then [k] else []
  }

  lemma KeysOfRankCons(k: GroupKey, ks: seq<GroupKey>, p: int)
    ensures KeysOfRank([k] + ks, p) == KeyIfRank(k, p) + KeysOfRank(ks, p)
  {
    assert ([k] + ks)[1..] == ks;
  }

  lemma KeysOfRankSix(a: GroupKey, b: GroupKey, c: GroupKey, d: GroupKey, e: GroupKey, f: GroupKey, p: int)
    ensures KeysOfRank([a, b, c, d, e, f], p)
            == KeyIfRank(a, p) + (KeyIfRank(b, p) + (KeyIfRank(c, p) + (KeyIfRank(d, p)
               + (KeyIfRank(e, p) + (KeyIfRank(f, p) + KeysOfRank([], p))))))
  {
    assert [a, b, c, d, e, f] == [a] + ([b] + ([c] + ([d] + ([e] + [f]))));
    KeysOfRankCons(a, [b] + ([c] + ([d] + ([e] + [f]))), p);
    KeysOfRankCons(b, [c] + ([d] + ([e] + [f])), p);
    KeysOfRankCons(c, [d] + ([e] + [f]), p);
    KeysOfRankCons(d, [e] + [f], p);
    KeysOfRankCons(e, [f], p);
    KeysOfRankCons(f, [], p);
  }

  /** The group-by order and the report order agree rank by rank. */
  lemma KeysOfRankAgree(p: int)
    ensures KeysOfRank(KeyOrder, p) == KeysOfRank(ReportOrder, p)
  {
    var cf, ct := GroupKey(Cancelled, false), GroupKey(Cancelled, true);
    var nf, nt := GroupKey(NoStatcast, false), GroupKey(NoStatcast, true);
    var sf, st := GroupKey(StatcastGames, false), GroupKey(StatcastGames, true);
    assert Priority(cf) == -1 && Priority(ct) == -1;
    assert Priority(st) == 0 && Priority(sf) == 1 && Priority(nt) == 2 && Priority(nf) == 3;
    KeysOfRankSix(cf, ct, nf, nt, sf, st, p);
    KeysOfRankSix(cf, ct, st, sf, nt, nf, p);
    if p == -1 {
    } else if p == 0 {
    } else if p == 1 {
    } else if p == 2 {
    } else if p == 3 {
    } else {
    }
  }

  /** ReportOrder lists its keys by non-decreasing rank. */
  lemma ReportOrderRanked()
    ensures forall i, j :: 0 <= i < j < |ReportOrder| ==> Priority(ReportOrder[i]) <= Priority(ReportOrder[j])
  {
    var ranks := [-1, -1, 0, 1, 2, 3];
    forall i | 0 <= i < |ReportOrder|
      ensures Priority(ReportOrder[i]) == ranks[i]
    {
    }
  }

  /** Sorting the group-by result keeps, rank by rank, the groups that
      ReportOrder lists. */
  lemma SortedRankAgree(rows: seq<ReportRow>, p: int)
    ensures OfRank(SortGroups(GroupBy(rows)), p) == OfRank(GroupsFor(rows, ReportOrder), p)
  {
    assert GroupBy(rows) == GroupsFor(rows, KeyOrder);
    OfRankGroupsFor(rows, KeyOrder, p);
    OfRankGroupsFor(rows, ReportOrder, p);
    KeysOfRankAgree(p);
  }

  /** The sorted groups are the non-empty groups of ReportOrder, in that
      order, whatever order the rows came in. */
  lemma SortedGroupOrder(rows: seq<ReportRow>)
    ensures SortGroups(GroupBy(rows)) == GroupsFor(rows, ReportOrder)
  {
    var a := SortGroups(GroupBy(rows));
    var b := GroupsFor(rows, ReportOrder);
    ReportOrderRanked();
    GroupsForSorted(rows, ReportOrder);
    forall p
      ensures OfRank(a, p) == OfRank(b, p)
    {
      SortedRankAgree(rows, p);
    }
    SortedUnique(a, b);
  }
}
