/** The HTML text of yesterday's report: one block per sorted group. */
module Render {
  import opened Text
  import opened Savant
  import opened Names
  import opened Grouping

  // ---------------------------------------------------------------------
  // Headings

  /** The script's `headers` table, keyed by (is a Statcast game, on TV). */
  const Headers: map<(bool, bool), string> := map[
    (true, true) := "<span style=\"font-size: 20pt; color: #3366ff;\"><strong>Statcast Games - TV</strong></span>",
    (true, false) := "<span style=\"font-size: 20pt; color: #339966;\"><strong>Statcast Games - No TV</strong></span>",
    (false, true) := "<span style=\"font-size: 20pt; color: #cf5606;\"><strong>No Statcast - TV</strong></span>",
    (false, false) := "<span style=\"font-size: 20pt; color: #940a0a;\"><strong>No Statcast - No TV</strong></span>"]

  /** `(statcast_status == "Statcast Games", on_tv)`: only the Statcast
      label counts, so a Cancelled group is looked up as "No Statcast". */
  function HeaderKey(k: GroupKey): (bool, bool)
  {
    (k.status == StatcastGames, k.onTv)
  }

  /** The heading of a group; every key has one, Cancelled included. */
  function Heading(k: GroupKey): (h: string)
    ensures HeaderKey(k) in Headers && h == Headers[HeaderKey(k)]
  {
    Headers[HeaderKey(k)]
  }

  /** The four headings are pairwise different. */
  lemma HeadersDistinct()
    ensures forall x, y :: x in Headers && y in Headers && x != y ==> Headers[x] != Headers[y]
  {
    assert Headers[(true, true)] != Headers[(true, false)];
    assert Headers[(true, true)] != Headers[(false, true)];
    assert Headers[(true, true)] != Headers[(false, false)];
    assert Headers[(true, false)] != Headers[(false, true)];
    assert Headers[(true, false)] != Headers[(false, false)];
    assert Headers[(false, true)] != Headers[(false, false)];
  }

  /** Two keys share a heading exactly when they share a header key. */
  lemma HeadingsDistinct(a: GroupKey, b: GroupKey)
    ensures Heading(a) == Heading(b) <==> HeaderKey(a) == HeaderKey(b)
  {
    HeadersDistinct();
  }

  /** A Cancelled group is headed exactly like a No Statcast group, and
      differently from a Statcast group. */
  lemma CancelledHeading(onTv: bool)
    ensures Heading(GroupKey(Cancelled, onTv)) == Heading(GroupKey(NoStatcast, onTv))
    ensures Heading(GroupKey(Cancelled, onTv)) != Heading(GroupKey(StatcastGames, onTv))
  {
    HeadingsDistinct(GroupKey(Cancelled, onTv), GroupKey(StatcastGames, onTv));
  }

  // ---------------------------------------------------------------------
  // `Series.unique()`: distinct values in order of first appearance

  /** Values of `s` not in `seen`, each once, in first-appearance order;
      `seen` plays the part of pandas' hash table. */
  function UniqueFrom(s: seq<string>, seen: set<string>): seq<string>
  {
    if s == [] then []
    else if s[0] in seen then UniqueFrom(s[1..], seen)
    else [s[0]] + UniqueFrom(s[1..], seen + {s[0]})
  }

  function Unique(s: seq<string>): seq<string>
  {
    UniqueFrom(s, {})
  }

  predicate NoDuplicates(s: seq<string>)
  {
    forall i, j :: 0 <= i < j < |s| ==> s[i] != s[j]
  }

  /** Reference definition, read from the back: position `k` contributes
      `s[k]` when that value does not occur before `k`. */
  function FirstOccurrences(s: seq<string>): seq<string>
  {
    if s == [] then []
    else
      var init := s[..|s| - 1];
      FirstOccurrences(init) + (if s[|s| - 1] in init then [] else [s[|s| - 1]])
  }

  lemma {:induction false} UniqueFromMembers(s: seq<string>, seen: set<string>)
    ensures forall x :: x in UniqueFrom(s, seen) <==> x in s && x !in seen
    ensures NoDuplicates(UniqueFrom(s, seen))
  {
    if s != [] {
      UniqueFromMembers(s[1..], seen);
      UniqueFromMembers(s[1..], seen + {s[0]});
      assert s == [s[0]] + s[1..];
      if s[0] !in seen {
        var t := UniqueFrom(s[1..], seen + {s[0]});
        assert UniqueFrom(s, seen) == [s[0]] + t;
        forall i, j | 0 <= i < j < |[s[0]] + t|
          ensures ([s[0]] + t)[i] != ([s[0]] + t)[j]
        {
          if i == 0 {
            assert t[j - 1] in t;
          } else {
            assert t[i - 1] != t[j - 1];
          }
        }
      }
    }
  }

  /** `unique` keeps every value once and nothing else. */
  lemma UniqueMembers(s: seq<string>)
    ensures forall x :: x in Unique(s) <==> x in s
    ensures NoDuplicates(Unique(s))
  {
    UniqueFromMembers(s, {});
  }

  /** Appending one value adds it at the end, if it is new. */
  lemma {:induction false} UniqueFromSnoc(s: seq<string>, x: string, seen: set<string>)
    ensures UniqueFrom(s + [x], seen)
            == UniqueFrom(s, seen) + (if x in seen || x in s then [] else [x])
  {
    if s == [] {
      assert [] + [x] == [x];
      assert UniqueFrom([x], seen) == (if x in seen then [] else [x] + UniqueFrom([], seen + {x}));
    } else {
      assert (s + [x])[1..] == s[1..] + [x];
      assert s == [s[0]] + s[1..];
      if s[0] in seen {
        UniqueFromSnoc(s[1..], x, seen);
      } else {
        UniqueFromSnoc(s[1..], x, seen + {s[0]});
      }
    }
  }

  /** `unique` agrees with the first-occurrence reference definition. */
  lemma {:induction false} UniqueIsFirstOccurrences(s: seq<string>)
    ensures Unique(s) == FirstOccurrences(s)
  {
    if s != [] {
      var init := s[..|s| - 1];
      assert s == init + [s[|s| - 1]];
      UniqueIsFirstOccurrences(init);
      UniqueFromSnoc(init, s[|s| - 1], {});
    }
  }

  // ---------------------------------------------------------------------
  // One group's block

  /** Each string followed by `suffix`, as the script's `f"{x}<br>&nbsp;<br>"`. */
  function Suffixed(parts: seq<string>, suffix: string): (r: seq<string>)
    ensures |r| == |parts|
    ensures forall i :: 0 <= i < |parts| ==> r[i] == parts[i] + suffix
  {
    seq(|parts|, i requires 0 <= i < |parts| => parts[i] + suffix)
  }

  const LineBreak: string := "<br>&nbsp;<br>"

  /** The pitcher line: name, team and the five labelled stats, in bold. */
  function PitcherText(r: ReportRow): string
  {
    "<strong>" + r.fullName + " (" + r.team + ") - "
    + r.ip + ", " + r.er + ", " + r.h + ", " + r.bb + ", " + r.k + ".</strong>"
  }

  function GameInfos(rows: seq<ReportRow>): (infos: seq<string>)
    ensures |infos| == |rows|
    ensures forall i :: 0 <= i < |rows| ==> infos[i] == rows[i].gameInfo
  {
    seq(|rows|, i requires 0 <= i < |rows| => rows[i].gameInfo)
  }

  function PitcherTexts(rows: seq<ReportRow>): (texts: seq<string>)
    ensures |texts| == |rows|
    ensures forall i :: 0 <= i < |rows| ==> texts[i] == PitcherText(rows[i])
  {
    seq(|rows|, i requires 0 <= i < |rows| => PitcherText(rows[i]))
  }

  /** The distinct match-ups of the group, one line each. */
  function InfoBlock(g: Group): string
  {
    Concat(Suffixed(Unique(GameInfos(g.members)), LineBreak))
  }

  /** The pitchers of the group in table order, one line each. */
  function PitcherBlock(g: Group): string
  {
    Concat(Suffixed(PitcherTexts(g.members), LineBreak))
  }

  /** Heading, match-ups, pitchers, and the separators between them. */
  function RenderGroup(g: Group): (t: string)
    ensures OccursAt(t, Heading(g.key), 0)
    ensures OccursAt(t, InfoBlock(g), |Heading(g.key)| + 8)
    ensures OccursAt(t, PitcherBlock(g), |Heading(g.key)| + 8 + |InfoBlock(g)| + 10)
  {
    SixBlocks(Heading(g.key), "<br><br>", InfoBlock(g), "&nbsp;<br>", PitcherBlock(g), "&nbsp;<br><br>");
    Heading(g.key) + "<br><br>" + InfoBlock(g) + "&nbsp;<br>" + PitcherBlock(g) + "&nbsp;<br><br>"
  }

  function GroupTexts(gs: seq<Group>): (texts: seq<string>)
    ensures |texts| == |gs|
    ensures forall i :: 0 <= i < |gs| ==> texts[i] == RenderGroup(gs[i])
  {
    seq(|gs|, i requires 0 <= i < |gs| => RenderGroup(gs[i]))
  }

  /** `html_content`: the group blocks in the given order. */
  function RenderReport(gs: seq<Group>): (html: string)
    ensures gs == [] ==> html == ""
    ensures gs != [] ==> OccursAt(html, RenderGroup(gs[0]), 0)
  {
    if gs == [] then ""
    else
      ConcatOccurs(GroupTexts(gs), 0);
      assert GroupTexts(gs)[..0] == [];
      Concat(GroupTexts(gs))
  }

  // ---------------------------------------------------------------------
  // Properties of the report text

  /** The report opens with the first group's heading. */
  lemma ReportStartsWithHeading(gs: seq<Group>)
    requires gs != []
    ensures OccursAt(RenderReport(gs), Heading(gs[0].key), 0)
  {
    OccursTrans(RenderReport(gs), RenderGroup(gs[0]), Heading(gs[0].key), 0, 0);
  }

  /** Rendering distributes over concatenation of group lists, so the
      groups appear in the report in the order they were sorted. */
  lemma RenderAppend(a: seq<Group>, b: seq<Group>)
    ensures RenderReport(a + b) == RenderReport(a) + RenderReport(b)
  {
    ReportIsConcat(a);
    ReportIsConcat(b);
    ReportIsConcat(a + b);
    GroupTextsAppend(a, b);
    ConcatAppend(GroupTexts(a), GroupTexts(b));
  }

  lemma ReportIsConcat(gs: seq<Group>)
    ensures RenderReport(gs) == Concat(GroupTexts(gs))
  {
    if gs == [] {
      assert GroupTexts(gs) == [];
    }
  }

  lemma GroupTextsAppend(a: seq<Group>, b: seq<Group>)
    ensures GroupTexts(a + b) == GroupTexts(a) + GroupTexts(b)
  {
    var l, r := GroupTexts(a), GroupTexts(b);
    assert |GroupTexts(a + b)| == |l + r|;
    forall i | 0 <= i < |a + b|
      ensures GroupTexts(a + b)[i] == (l + r)[i]
    {
      if i < |a| {
        assert (a + b)[i] == a[i];
      } else {
        assert (a + b)[i] == b[i - |a|];
      }
    }
  }

  /** Each group block occurs in the report. */
  lemma GroupRendered(gs: seq<Group>, i: int)
    requires 0 <= i < |gs|
    ensures exists n :: OccursAt(RenderReport(gs), RenderGroup(gs[i]), n)
  {
    ConcatOccurs(GroupTexts(gs), i);
    assert GroupTexts(gs)[i] == RenderGroup(gs[i]);
    assert OccursAt(RenderReport(gs), RenderGroup(gs[i]), |Concat(GroupTexts(gs)[..i])|);
  }

  /** A text inside a group's block is inside the report. */
  lemma InGroupInReport(gs: seq<Group>, i: int, t: string, n: int)
    requires 0 <= i < |gs| && OccursAt(RenderGroup(gs[i]), t, n)
    ensures HasSubstring(RenderReport(gs), t)
  {
    ConcatOccurs(GroupTexts(gs), i);
    OccursTrans(RenderReport(gs), RenderGroup(gs[i]), t, |Concat(GroupTexts(gs)[..i])|, n);
  }

  /** Every member's pitcher line is in its group's pitcher block. */
  lemma PitcherInBlock(g: Group, j: int)
    requires 0 <= j < |g.members|
    ensures exists n :: OccursAt(PitcherBlock(g), PitcherText(g.members[j]), n)
  {
    var t := PitcherText(g.members[j]);
    var lines := Suffixed(PitcherTexts(g.members), LineBreak);
    assert lines[j] == t + LineBreak;
    assert OccursAt(lines[j], t, 0) by {
      assert lines[j][0..|t|] == t;
    }
    ConcatOccurs(lines, j);
    OccursTrans(PitcherBlock(g), lines[j], t, |Concat(lines[..j])|, 0);
  }

  /** Every member's match-up is in its group's match-up block. */
  lemma InfoInBlock(g: Group, j: int)
    requires 0 <= j < |g.members|
    ensures exists n :: OccursAt(InfoBlock(g), g.members[j].gameInfo, n)
  {
    var info := g.members[j].gameInfo;
    var u := Unique(GameInfos(g.members));
    UniqueMembers(GameInfos(g.members));
    assert GameInfos(g.members)[j] == info;
    assert info in u;
    var k :| 0 <= k < |u| && u[k] == info;
    var lines := Suffixed(u, LineBreak);
    assert OccursAt(lines[k], info, 0) by {
      assert lines[k][0..|info|] == info;
    }
    ConcatOccurs(lines, k);
    OccursTrans(InfoBlock(g), lines[k], info, |Concat(lines[..k])|, 0);
  }

  /** Every member of every group has its pitcher line in the report. */
  lemma EveryPitcherRendered(gs: seq<Group>, i: int, j: int)
    requires 0 <= i < |gs| && 0 <= j < |gs[i].members|
    ensures HasSubstring(RenderReport(gs), PitcherText(gs[i].members[j]))
  {
    var g := gs[i];
    var t := PitcherText(g.members[j]);
    PitcherInBlock(g, j);
    var n :| OccursAt(PitcherBlock(g), t, n);
    var at := |Heading(g.key)| + 8 + |InfoBlock(g)| + 10;
    OccursTrans(RenderGroup(g), PitcherBlock(g), t, at, n);
    InGroupInReport(gs, i, t, at + n);
  }

  /** Every match-up of every group has its line in the report. */
  lemma EveryGameInfoRendered(gs: seq<Group>, i: int, j: int)
    requires 0 <= i < |gs| && 0 <= j < |gs[i].members|
    ensures HasSubstring(RenderReport(gs), gs[i].members[j].gameInfo)
  {
    var g := gs[i];
    var info := g.members[j].gameInfo;
    InfoInBlock(g, j);
    var n :| OccursAt(InfoBlock(g), info, n);
    var at := |Heading(g.key)| + 8;
    OccursTrans(RenderGroup(g), InfoBlock(g), info, at, n);
    InGroupInReport(gs, i, info, at + n);
  }
}
