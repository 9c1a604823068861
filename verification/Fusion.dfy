/** Reciprocal rank fusion of two ranked lists, as searchHybrid does it. */
module Fusion {
  import opened Lists

  const RRF_K := 60.0

  /** 1 / (k + rank), ranks counted from 1. */
  function Share(rank: nat): real { 1.0 / (RRF_K + rank as real) }

  /** What one list contributes to a document, over all its occurrences. */
  function ListScore(list: seq<string>, id: string): real {
    if list == [] then 0.0
    else
      ListScore(list[..|list| - 1], id) + (if list[|list| - 1] == id then Share(|list|) else 0.0)
  }

  function Rrf(fts: seq<string>, like: seq<string>): string -> real {
    (id: string) => ListScore(fts, id) + ListScore(like, id)
  }

  // ---- the method ----

  method AddRank(merged: map<string, real>, results: seq<string>) returns (out: map<string, real>)
    ensures out.Keys == merged.Keys + (set r | r in results)
    ensures forall id :: id in out ==>
      out[id] == (if id in merged then merged[id] else 0.0) + ListScore(results, id)
  {
    out := merged;
    for rank := 0 to |results|
      invariant out.Keys == merged.Keys + (set r | r in results[..rank])
      invariant forall id :: id in out ==>
        out[id] == (if id in merged then merged[id] else 0.0) + ListScore(results[..rank], id)
    {
      var m := results[rank];
      assert results[..rank + 1] == results[..rank] + [m];
      assert results[..rank + 1][..rank] == results[..rank];
      if m !in out {
        NeverListed(results[..rank], m);
        out := out[m := 0.0];
      }
      out := out[m := out[m] + Share(rank + 1)];
    }
    assert results[..|results|] == results;
  }

  lemma {:induction false} NeverListed(list: seq<string>, id: string)
    requires id !in list
    ensures ListScore(list, id) == 0.0
  {
    if list != [] {
      assert list[|list| - 1] in list;
      NeverListed(list[..|list| - 1], id);
    }
  }

  /** The keys of the score map in whatever order the map yields them. */
  method CollectKeys(merged: map<string, real>) returns (all: seq<string>)
    ensures NoRepeats(all) && forall id :: id in all <==> id in merged
  {
    all := [];
    var rest := merged.Keys;
    while rest != {}
      invariant NoRepeats(all) && forall id :: id in merged <==> id in rest || id in all
      invariant forall id :: id in all ==> id !in rest
      decreases rest
    {
      var id :| id in rest;
      rest := rest - {id};
      all := all + [id];
    }
  }

  /** Fuses the two lists: every document of either once, best fused score first; ties come in
      whatever order the score map yields. */
  method Fuse(fts: seq<string>, like: seq<string>) returns (out: seq<string>)
    ensures NoRepeats(out) && forall id :: id in out <==> id in fts || id in like
    ensures SortedDesc(out, Rrf(fts, like))
  {
    var merged := AddRank(map[], fts);
    var both := AddRank(merged, like);
    forall id | id in both
      ensures both[id] == Rrf(fts, like)(id)
    {
      if id !in merged {
        NeverListed(fts, id);
      }
    }
    var all := CollectKeys(both);
    var byScore := (id: string) => if id in both then both[id] else 0.0;
    out := StableSort(all, byScore);
    StableSortSorts(all, byScore);
    NoRepeatsPermuted(all, out);
  }

  lemma NoRepeatsPermuted(s: seq<string>, t: seq<string>)
    requires NoRepeats(s) && multiset(s) == multiset(t)
    ensures NoRepeats(t)
  {
    forall i, j | 0 <= i < j < |t|
      ensures t[i] != t[j]
    {
      OnceOnly(s, t[i]);
      TwiceCounts(t, i, j);
    }
  }

  lemma TwiceCounts(t: seq<string>, i: nat, j: nat)
    requires i < j < |t|
    ensures t[i] == t[j] ==> multiset(t)[t[i]] >= 2
  {
    assert t == t[..i] + [t[i]] + t[i + 1..j] + [t[j]] + t[j + 1..];
  }

  lemma {:induction false} OnceOnly(s: seq<string>, id: string)
    requires NoRepeats(s)
    ensures multiset(s)[id] <= 1
  {
    if s != [] {
      var before, last := s[..|s| - 1], s[|s| - 1];
      assert s == before + [last];
      OnceOnly(before, id);
      if id == last {
        assert last !in before;
        assert multiset(before)[id] == 0;
      }
    }
  }

  // ---- what the score means ----

  function IndexOf(list: seq<string>, id: string): (i: nat)
    requires id in list
    ensures i < |list| && list[i] == id
  {
    if list[0] == id then 0 else 1 + IndexOf(list[1..], id)
  }

  /** In a list without repeats a document contributes once, by its rank. */
  lemma {:induction false} ScoreAt(list: seq<string>, i: nat)
    requires NoRepeats(list) && i < |list|
    ensures ListScore(list, list[i]) == Share(i + 1)
  {
    var before := list[..|list| - 1];
    if i == |list| - 1 {
      NeverListed(before, list[i]);
    } else {
      ScoreAt(before, i);
      assert before[i] == list[i];
    }
  }

  lemma Reciprocal(p: real, q: real)
    requires 0.0 < p < q
    ensures 1.0 / p > 1.0 / q > 0.0
  {
    var u, v := 1.0 / p, 1.0 / q;
    assert u * p == 1.0 && v * q == 1.0;
    MulLess(v, p, q);
    PositiveFactor(u - v, p);
  }

  lemma MulLess(v: real, p: real, q: real)
    requires v > 0.0 && p < q
    ensures v * p < v * q
  {
  }

  lemma PositiveFactor(d: real, p: real)
    requires p > 0.0 && d * p > 0.0
    ensures d > 0.0
  {
  }

  lemma ShareShrinks(a: nat, b: nat)
    requires a < b
    ensures Share(a) > Share(b) > 0.0
  {
    Reciprocal(RRF_K + a as real, RRF_K + b as real);
  }

  /** a is ranked at least as well as b: wherever b is listed, a is, and not below it. */
  ghost predicate AsGood(list: seq<string>, a: string, b: string) {
    b in list ==> a in list && IndexOf(list, a) <= IndexOf(list, b)
  }

  ghost predicate Better(list: seq<string>, a: string, b: string) {
    a in list && (b in list ==> IndexOf(list, a) < IndexOf(list, b))
  }

  lemma ScoreOrder(list: seq<string>, a: string, b: string)
    requires NoRepeats(list)
    ensures AsGood(list, a, b) ==> ListScore(list, a) >= ListScore(list, b)
    ensures Better(list, a, b) ==> ListScore(list, a) > ListScore(list, b)
  {
    if a in list {
      ScoreAt(list, IndexOf(list, a));
      ShareShrinks(IndexOf(list, a) + 1, IndexOf(list, a) + 2);
    } else {
      NeverListed(list, a);
    }
    if b in list {
      ScoreAt(list, IndexOf(list, b));
      if a in list && IndexOf(list, a) < IndexOf(list, b) {
        ShareShrinks(IndexOf(list, a) + 1, IndexOf(list, b) + 1);
      }
    } else {
      NeverListed(list, b);
    }
  }

  lemma HigherPrecedes(out: seq<string>, key: string -> real, a: string, b: string)
    requires SortedDesc(out, key) && a in out && b in out && key(a) > key(b)
    ensures Precedes(out, a, b)
  {
    var i :| 0 <= i < |out| && out[i] == a;
    var j :| 0 <= j < |out| && out[j] == b;
    assert i < j;
  }

  /** Any output the fusion may produce. */
  ghost predicate Fused(out: seq<string>, fts: seq<string>, like: seq<string>) {
    NoRepeats(out) && SortedDesc(out, Rrf(fts, like)) && forall id :: id in out <==> id in fts || id in like
  }

  /** A document ranked at least as well in both lists and better in one always comes first. */
  lemma DominanceWins(fts: seq<string>, like: seq<string>, out: seq<string>, a: string, b: string)
    requires NoRepeats(fts) && NoRepeats(like) && Fused(out, fts, like) && b in out
    requires AsGood(fts, a, b) && AsGood(like, a, b) && (Better(fts, a, b) || Better(like, a, b))
    ensures Precedes(out, a, b)
  {
    ScoreOrder(fts, a, b);
    ScoreOrder(like, a, b);
    HigherPrecedes(out, Rrf(fts, like), a, b);
  }

  ghost predicate InTop(list: seq<string>, n: nat, id: string) {
    id in list && IndexOf(list, id) < n
  }

  /** Every document in the top n of both lists comes before every document of only one list. */
  ghost predicate AgreementWins(n: nat) {
    forall fts, like, out, a, b ::
      NoRepeats(fts) && NoRepeats(like) && Fused(out, fts, like)
      && InTop(fts, n, a) && InTop(like, n, a) && b in out && !(b in fts && b in like) ==>
        Precedes(out, a, b)
  }

  lemma TopScores(list: seq<string>, n: nat, id: string)
    requires NoRepeats(list) && InTop(list, n, id)
    ensures ListScore(list, id) >= Share(n)
  {
    ScoreAt(list, IndexOf(list, id));
    if IndexOf(list, id) + 1 < n {
      ShareShrinks(IndexOf(list, id) + 1, n);
    }
  }

  lemma SingleScores(fts: seq<string>, like: seq<string>, id: string)
    requires NoRepeats(fts) && NoRepeats(like) && !(id in fts && id in like)
    ensures Rrf(fts, like)(id) <= Share(1)
  {
    ScoreAtMost(fts, id);
    ScoreAtMost(like, id);
    if id !in fts {
      NeverListed(fts, id);
    } else {
      NeverListed(like, id);
    }
  }

  lemma ScoreAtMost(list: seq<string>, id: string)
    requires NoRepeats(list)
    ensures ListScore(list, id) <= Share(1)
  {
    ShareShrinks(1, 2);
    if id in list {
      ScoreAt(list, IndexOf(list, id));
      if IndexOf(list, id) > 0 {
        ShareShrinks(1, IndexOf(list, id) + 1);
      }
    } else {
      NeverListed(list, id);
    }
  }

  function Filler(i: nat): string { seq(i + 2, _ => 'x') }

  /** b leads a list, then fillers, then a at rank 62. */
  function TightFts(): seq<string> { ["b"] + seq(60, (i: nat) => Filler(i)) + ["a"] }

  function TightLike(): seq<string> { seq(61, (i: nat) => Filler(i)) + ["a"] }

  lemma TightLists()
    ensures NoRepeats(TightFts()) && NoRepeats(TightLike())
    ensures |TightFts()| == |TightLike()| == 62 && TightFts()[61] == TightLike()[61] == "a" && TightFts()[0] == "b"
    ensures "b" !in TightLike()
  {
    forall i, j | 0 <= i < j < 62
      ensures TightFts()[i] != TightFts()[j] && TightLike()[i] != TightLike()[j]
    {
      assert 1 <= i < 61 ==> |TightFts()[i]| == i + 1;
      assert 1 <= j < 61 ==> |TightFts()[j]| == j + 1;
      assert i < 61 ==> |TightLike()[i]| == i + 2;
      assert j < 61 ==> |TightLike()[j]| == j + 2;
      assert "a"[0] != "b"[0];
    }
    forall i | 0 <= i < 62
      ensures TightLike()[i] != "b"
    {
      assert i < 61 ==> |TightLike()[i]| == i + 2;
      assert "a"[0] != "b"[0];
    }
  }

  lemma UniqueIndex(list: seq<string>, i: nat)
    requires NoRepeats(list) && i < |list|
    ensures IndexOf(list, list[i]) == i
  {
  }

  /** With k = 60 the bound is exactly 61: at rank 62 in both lists a document only ties with the
      leader of one list, and a tie may come out either way. */
  lemma AgreementBound(n: nat)
    ensures AgreementWins(n) <==> n <= 61
  {
    if n <= 61 {
      forall fts, like, out, a, b |
        NoRepeats(fts) && NoRepeats(like) && Fused(out, fts, like)
        && InTop(fts, n, a) && InTop(like, n, a) && b in out && !(b in fts && b in like)
        ensures Precedes(out, a, b)
      {
        TopScores(fts, n, a);
        TopScores(like, n, a);
        SingleScores(fts, like, b);
        if n < 61 {
          ShareShrinks(n, 61);
        }
        assert Share(61) + Share(61) > Share(1);
        HigherPrecedes(out, Rrf(fts, like), a, b);
      }
    } else {
      TieComesOutEitherWay(n);
    }
  }

  lemma TightShares()
    ensures Share(62) + Share(62) == Share(1)
  {
  }

  lemma TightScores()
    ensures Rrf(TightFts(), TightLike())("a") == Rrf(TightFts(), TightLike())("b")
    ensures InTop(TightFts(), 62, "a") && InTop(TightLike(), 62, "a")
  {
    hide TightFts, TightLike, ListScore, IndexOf, Share, NoRepeats;
    var fts, like := TightFts(), TightLike();
    TightLists();
    UniqueIndex(fts, 61);
    UniqueIndex(like, 61);
    ScoreAt(fts, 61);
    ScoreAt(like, 61);
    ScoreAt(fts, 0);
    NeverListed(like, "b");
    TightShares();
  }

  /** The tied output with b first. */
  lemma TieComesOutEitherWay(n: nat)
    requires n >= 62
    ensures !AgreementWins(n)
  {
    hide TightFts, TightLike, ListScore, Share, IndexOf, SortedDesc, StableSort;
    var fts, like := TightFts(), TightLike();
    TightLists();
    TightScores();
    var key, all := Rrf(fts, like), ["b"] + like;
    var out := StableSort(all, key);
    StableSortSorts(all, key);
    assert NoRepeats(all) by {
      assert forall i :: 0 <= i < 62 ==> like[i] in like;
    }
    NoRepeatsPermuted(all, out);
    FtsWithinAll();
    assert Fused(out, fts, like);
    assert all[62] == "a" && all[0] == "b";
    EqualKeysKeepOrder(all, key, 0, 62);
  }

  lemma FtsWithinAll()
    ensures forall id :: id in ["b"] + TightLike() <==> id in TightFts() || id in TightLike()
  {
    var fts, like := TightFts(), TightLike();
    forall id | id in fts
      ensures id in ["b"] + like
    {
      var i :| 0 <= i < |fts| && fts[i] == id;
      if 1 <= i < 61 {
        assert fts[i] == Filler(i - 1) == like[i - 1];
      } else if i == 61 {
        assert like[61] == "a";
      }
    }
  }

  /** Sorting keeps the order of two elements with equal keys. */
  lemma EqualKeysKeepOrder(s: seq<string>, key: string -> real, i: nat, j: nat)
    requires i < j < |s| && key(s[i]) == key(s[j]) && NoRepeats(s)
    ensures !Precedes(StableSort(s, key), s[j], s[i])
  {
    hide StableSort, Filter, SortedDesc;
    var two := (id: string) => id == s[i] || id == s[j];
    var out := StableSort(s, key);
    FilterStableSort(s, key, two);
    FilterTwo(s, i, j, two);
    PairSorted(s[i], s[j], key);
    SortedAlready([s[i], s[j]], key);
    StableSortSorts(s, key);
    NoRepeatsPermuted(s, out);
    forall b, a | 0 <= b < a < |out| && out[b] == s[j]
      ensures out[a] != s[i]
    {
      if out[a] == s[i] {
        FilterTwo(out, b, a, two);
      }
    }
  }

  lemma PairSorted(a: string, b: string, key: string -> real)
    requires key(a) == key(b)
    ensures SortedDesc([a, b], key)
  {
  }

  lemma FilterTwo(s: seq<string>, i: nat, j: nat, two: string -> bool)
    requires i < j < |s| && NoRepeats(s) && forall id :: two(id) <==> id == s[i] || id == s[j]
    ensures Filter(s, two) == [s[i], s[j]]
  {
    hide Filter;
    FilterStretch(s, 0, i, two);
    FilterStretch(s, i, j, two);
    FilterStretch(s, j, |s|, two);
    var l, m, r := s[0..i], s[i..j], s[j..|s|];
    SplitThree(s, i, j);
    FilterAppend(l + m, r, two);
    FilterAppend(l, m, two);
  }

  lemma SplitThree<T>(s: seq<T>, i: nat, j: nat)
    requires i <= j <= |s|
    ensures s[0..i] + s[i..j] + s[j..|s|] == s
  {
  }

  /** A stretch of which at most the first element is kept. */
  lemma FilterStretch(s: seq<string>, lo: nat, hi: nat, p: string -> bool)
    requires lo <= hi <= |s| && forall k :: lo < k < hi ==> !p(s[k])
    ensures Filter(s[lo..hi], p) == if lo < hi && p(s[lo]) then [s[lo]] else []
  {
    hide Filter;
    var part := s[lo..hi];
    if lo < hi {
      assert part == [s[lo]] + s[lo + 1..hi];
      FilterAppend([s[lo]], s[lo + 1..hi], p);
      FilterNone(s[lo + 1..hi], p);
      FilterSingle(s[lo], p);
    } else {
      FilterNone(part, p);
    }
  }

  lemma FilterSingle(id: string, p: string -> bool)
    ensures Filter([id], p) == if p(id) then [id] else []
  {
    assert [id][..0] == [];
  }
}
