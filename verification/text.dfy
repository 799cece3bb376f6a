/** String helpers shared by the report and the TV-list builders.
    Strings are `seq<char>`; only ASCII case mapping is modelled. */
module Text {

  /** `t` occurs in `s` starting at index `i`. */
  predicate OccursAt(s: string, t: string, i: int)
  {
    0 <= i && i + |t| <= |s| && s[i..i + |t|] == t
  }

  /** Substring search: what pandas' `str.contains` does for a pattern
      without regular-expression metacharacters, such as "Pitchers". */
  function HasSubstring(s: string, t: string): (b: bool)
    ensures b <==> exists i :: OccursAt(s, t, i)
    decreases |s|
  {
    if |s| < |t| then
      false
    else if s[..|t|] == t then
      assert OccursAt(s, t, 0);
      true
    else
      ShiftOccurrence(s, t);
      HasSubstring(s[1..], t)
  }

  /** An occurrence that is not at index 0 is an occurrence in the tail. */
  lemma ShiftOccurrence(s: string, t: string)
    requires |t| <= |s|
    requires s[..|t|] != t
    ensures (exists i :: OccursAt(s, t, i)) <==> (exists j :: OccursAt(s[1..], t, j))
  {
    forall j | OccursAt(s[1..], t, j)
      ensures OccursAt(s, t, j + 1)
    {
      assert s[1..][j..j + |t|] == s[j + 1..j + 1 + |t|];
    }
    forall i | OccursAt(s, t, i)
      ensures OccursAt(s[1..], t, i - 1)
    {
      assert i != 0;
      assert s[1..][i - 1..i - 1 + |t|] == s[i..i + |t|];
    }
  }

  /** A block sitting between two others occurs where it was put. */
  lemma OccursInMiddle(a: string, m: string, b: string)
    ensures OccursAt(a + m + b, m, |a|)
  {
    assert (a + m + b)[|a|..|a| + |m|] == m;
  }

  /** Where the first, third and fifth of six adjoining blocks sit. */
  lemma SixBlocks(a: string, b: string, c: string, d: string, e: string, f: string)
    ensures OccursAt(a + b + c + d + e + f, a, 0)
    ensures OccursAt(a + b + c + d + e + f, c, |a| + |b|)
    ensures OccursAt(a + b + c + d + e + f, e, |a| + |b| + |c| + |d|)
  {
    var s := a + b + c + d + e + f;
    assert s[..|a|] == a;
    assert s[|a| + |b|..|a| + |b| + |c|] == c;
    assert s[|a| + |b| + |c| + |d|..|a| + |b| + |c| + |d| + |e|] == e;
  }

  /** An occurrence of `t` inside an occurrence of `m` is an occurrence in `s`. */
  lemma OccursTrans(s: string, m: string, t: string, i: int, j: int)
    requires OccursAt(s, m, i)
    requires OccursAt(m, t, j)
    ensures OccursAt(s, t, i + j)
  {
    forall k | 0 <= k < |t|
      ensures s[i + j..i + j + |t|][k] == t[k]
    {
      assert t[k] == m[j + k] == s[i + j + k];
    }
  }

  /** ASCII upper-casing of one character. */
  function UpperChar(c: char): char
  {
    if 'a' <= c <= 'z' then (c as int - 'a' as int + 'A' as int) as char else c
  }

  /** ASCII upper-casing (Python's `str.upper` on ASCII text). */
  function Upper(s: string): string
  {
    if s == [] then [] else [UpperChar(s[0])] + Upper(s[1..])
  }

  /** Concatenation of a sequence of strings (repeated `+=`). */
  function Concat(parts: seq<string>): string
  {
    if parts == [] then "" else parts[0] + Concat(parts[1..])
  }

  lemma {:induction false} ConcatAppend(a: seq<string>, b: seq<string>)
    ensures Concat(a + b) == Concat(a) + Concat(b)
  {
    if a == [] {
      assert a + b == b;
    } else {
      assert (a + b)[1..] == a[1..] + b;
      ConcatAppend(a[1..], b);
    }
  }

  /** Every part of a concatenation occurs in it, after the parts before it. */
  lemma ConcatOccurs(parts: seq<string>, i: int)
    requires 0 <= i < |parts|
    ensures OccursAt(Concat(parts), parts[i], |Concat(parts[..i])|)
  {
    assert parts == parts[..i] + [parts[i]] + parts[i + 1..];
    ConcatAppend(parts[..i] + [parts[i]], parts[i + 1..]);
    ConcatAppend(parts[..i], [parts[i]]);
    assert Concat([parts[i]]) == parts[i] + Concat([]);
    OccursInMiddle(Concat(parts[..i]), parts[i], Concat(parts[i + 1..]));
  }

  /** Python's `sep.join(parts)`. */
  function Join(sep: string, parts: seq<string>): string
  {
    if |parts| == 0 then ""
    else if |parts| == 1 then parts[0]
    else parts[0] + sep + Join(sep, parts[1..])
  }

  /** Every part of a join occurs in it. */
  lemma {:induction false} JoinOccurs(sep: string, parts: seq<string>, i: int)
    requires 0 <= i < |parts|
    ensures exists k :: OccursAt(Join(sep, parts), parts[i], k)
  {
    if |parts| == 1 {
      assert OccursAt(Join(sep, parts), parts[0], 0) by {
        assert Join(sep, parts)[0..|parts[0]|] == parts[0];
      }
    } else if i == 0 {
      var rest := sep + Join(sep, parts[1..]);
      assert Join(sep, parts) == parts[0] + rest;
      assert OccursAt(Join(sep, parts), parts[0], 0) by {
        assert (parts[0] + rest)[0..|parts[0]|] == parts[0];
      }
    } else {
      JoinOccurs(sep, parts[1..], i - 1);
      var k :| OccursAt(Join(sep, parts[1..]), parts[1..][i - 1], k);
      var before := parts[0] + sep;
      OccursInMiddle(before, Join(sep, parts[1..]), "");
      assert before + Join(sep, parts[1..]) + "" == Join(sep, parts);
      OccursTrans(Join(sep, parts), Join(sep, parts[1..]), parts[i], |before|, k);
    }
  }
}
