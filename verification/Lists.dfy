/** Sequence functions shared by the tables and the rankings: filter, map, and the stable
    descending sort that stands for ORDER BY ... DESC and for sort.SliceStable. */
module Lists {

  function Min(a: nat, b: nat): nat { if a < b then a else b }

  ghost predicate NoRepeats<T>(s: seq<T>) {
    forall i, j :: 0 <= i < j < |s| ==> s[i] != s[j]
  }

  function Filter<T(!new)>(s: seq<T>, p: T -> bool): (r: seq<T>)
    ensures |r| <= |s|
    ensures forall x :: x in r <==> x in s && p(x)
  {
    if s == [] then []
    else Filter(s[..|s| - 1], p) + (if p(s[|s| - 1]) then [s[|s| - 1]] else [])
  }

  function Map<T(!new), U(!new)>(s: seq<T>, f: T -> U): (r: seq<U>)
    ensures |r| == |s|
  {
    seq(|s|, i requires 0 <= i < |s| => f(s[i]))
  }

  lemma MapAppend<T(!new), U(!new)>(s: seq<T>, x: T, f: T -> U)
    ensures Map(s + [x], f) == Map(s, f) + [f(x)]
  {
  }

  lemma FilterStep<T(!new)>(s: seq<T>, i: nat, p: T -> bool)
    requires i < |s|
    ensures Filter(s[..i + 1], p) == Filter(s[..i], p) + (if p(s[i]) then [s[i]] else [])
  {
    assert s[..i + 1][..i] == s[..i];
  }

  lemma FilterLast<T(!new)>(s: seq<T>, x: T, p: T -> bool)
    ensures Filter(s + [x], p) == if p(x) then Filter(s, p) + [x] else Filter(s, p)
  {
    assert (s + [x])[..|s|] == s;
  }

  lemma Assoc<T>(a: seq<T>, b: seq<T>, c: seq<T>)
    ensures (a + b) + c == a + (b + c)
  {
  }

  lemma {:induction false} FilterAppend<T(!new)>(a: seq<T>, b: seq<T>, p: T -> bool)
    ensures Filter(a + b, p) == Filter(a, p) + Filter(b, p)
    decreases |b|
  {
    if b == [] {
      assert a + b == a;
    } else {
      var b' := b[..|b| - 1];
      assert (a + b)[..|a + b| - 1] == a + b';
      FilterAppend(a, b', p);
      Assoc(Filter(a, p), Filter(b', p), if p(b[|b| - 1]) then [b[|b| - 1]] else []);
    }
  }

  lemma {:induction false} FilterNone<T(!new)>(s: seq<T>, p: T -> bool)
    requires forall x :: x in s ==> !p(x)
    ensures Filter(s, p) == []
  {
    if s != [] {
      assert s[|s| - 1] in s;
      FilterNone(s[..|s| - 1], p);
    }
  }

  lemma FilterKeepsNext<T(!new)>(s: seq<T>, n: nat, p: T -> bool)
    requires n < |s| && Filter(s[..n], p) == s[..n] && p(s[n])
    ensures Filter(s[..n + 1], p) == s[..n + 1]
  {
    hide *;
    FilterStep(s, n, p);
  }

  lemma {:induction false} FilterAllUpTo<T(!new)>(s: seq<T>, p: T -> bool, n: nat)
    requires n <= |s| && forall i :: 0 <= i < n ==> p(s[i])
    ensures Filter(s[..n], p) == s[..n]
  {
    if n > 0 {
      hide *;
      FilterAllUpTo(s, p, n - 1);
      FilterKeepsNext(s, n - 1, p);
    }
  }

  lemma FilterAll<T(!new)>(s: seq<T>, p: T -> bool)
    requires forall i :: 0 <= i < |s| ==> p(s[i])
    ensures Filter(s, p) == s
  {
    hide *;
    FilterAllUpTo(s, p, |s|);
    assert s[..|s|] == s;
  }

  /** A filter that rejects one position alone takes it out. */
  lemma FilterDropsOne<T(!new)>(s: seq<T>, k: nat, p: T -> bool)
    requires k < |s| && forall i :: 0 <= i < |s| ==> (p(s[i]) <==> i != k)
    ensures Filter(s, p) == s[..k] + s[k + 1..]
  {
    var a, x, b := s[..k], s[k], s[k + 1..];
    assert s == (a + [x]) + b;
    forall i | 0 <= i < |a| ensures p(a[i]) { assert a[i] == s[i]; }
    forall i | 0 <= i < |b| ensures p(b[i]) { assert b[i] == s[k + 1 + i]; }
    hide *;
    FilterAppend(a + [x], b, p);
    FilterLast(a, x, p);
    FilterAll(a, p);
    FilterAll(b, p);
  }

  lemma {:induction false} FilterAgree<T(!new)>(s: seq<T>, p: T -> bool, q: T -> bool)
    requires forall x :: x in s ==> p(x) == q(x)
    ensures Filter(s, p) == Filter(s, q)
  {
    if s != [] {
      FilterAgree(s[..|s| - 1], p, q);
    }
  }

  lemma {:induction false} FilterTwice<T(!new)>(s: seq<T>, p: T -> bool, q: T -> bool, both: T -> bool)
    requires forall x :: both(x) == (p(x) && q(x))
    ensures Filter(Filter(s, p), q) == Filter(s, both)
  {
    if s != [] {
      var s', x := s[..|s| - 1], s[|s| - 1];
      FilterTwice(s', p, q, both);
      if p(x) {
        assert (Filter(s', p) + [x])[..|Filter(s', p)|] == Filter(s', p);
      } else {
        assert Filter(s', p) + [] == Filter(s', p);
      }
    }
  }

  lemma {:induction false} FilterMap<T(!new), U(!new)>(s: seq<T>, f: T -> U, p: T -> bool, q: U -> bool)
    requires forall x :: q(f(x)) == p(x)
    ensures Filter(Map(s, f), q) == Map(Filter(s, p), f)
  {
    if s != [] {
      var before, last := s[..|s| - 1], s[|s| - 1];
      FilterMap(before, f, p, q);
      assert Map(s, f)[..|s| - 1] == Map(before, f) && Map(s, f)[|s| - 1] == f(last);
      if p(last) {
        MapAppend(Filter(before, p), last, f);
      } else {
        assert Filter(before, p) + [] == Filter(before, p);
        assert Filter(Map(before, f), q) + [] == Filter(Map(before, f), q);
      }
    }
  }

  ghost predicate SortedDesc<T(!new)>(s: seq<T>, key: T -> real) {
    forall i, j :: 0 <= i < j < |s| ==> key(s[i]) >= key(s[j])
  }

  /** Puts x after every element that ranks at least as high. */
  function InsertDesc<T(!new)>(s: seq<T>, x: T, key: T -> real): (r: seq<T>)
    ensures |r| == |s| + 1
    ensures forall y :: y in r <==> y in s || y == x
  {
    if s == [] || key(s[|s| - 1]) >= key(x) then s + [x]
    else
      assert s == s[..|s| - 1] + [s[|s| - 1]];
      InsertDesc(s[..|s| - 1], x, key) + [s[|s| - 1]]
  }

  /** Highest key first, ties in their original order. */
  function StableSort<T(!new)>(s: seq<T>, key: T -> real): (r: seq<T>)
    ensures |r| == |s|
    ensures forall y :: y in r <==> y in s
  {
    if s == [] then []
    else
      assert s == s[..|s| - 1] + [s[|s| - 1]];
      InsertDesc(StableSort(s[..|s| - 1], key), s[|s| - 1], key)
  }

  lemma {:induction false} InsertDescMultiset<T(!new)>(s: seq<T>, x: T, key: T -> real)
    ensures multiset(InsertDesc(s, x, key)) == multiset(s) + multiset{x}
  {
    if s != [] && key(s[|s| - 1]) < key(x) {
      InsertDescMultiset(s[..|s| - 1], x, key);
      assert s == s[..|s| - 1] + [s[|s| - 1]];
    }
  }

  lemma {:induction false} InsertDescSorted<T(!new)>(s: seq<T>, x: T, key: T -> real)
    requires SortedDesc(s, key)
    ensures SortedDesc(InsertDesc(s, x, key), key)
  {
    if s != [] && key(s[|s| - 1]) < key(x) {
      var s', last := s[..|s| - 1], s[|s| - 1];
      InsertDescSorted(s', x, key);
      var r := InsertDesc(s', x, key);
      forall i | 0 <= i < |r|
        ensures key(r[i]) >= key(last)
      {
        assert r[i] in r;
        if r[i] != x {
          var j :| 0 <= j < |s'| && s'[j] == r[i];
          assert s[j] == r[i];
        }
      }
    }
  }

  lemma {:induction false} StableSortSorts<T(!new)>(s: seq<T>, key: T -> real)
    ensures SortedDesc(StableSort(s, key), key)
    ensures multiset(StableSort(s, key)) == multiset(s)
  {
    if s != [] {
      StableSortSorts(s[..|s| - 1], key);
      InsertDescSorted(StableSort(s[..|s| - 1], key), s[|s| - 1], key);
      InsertDescMultiset(StableSort(s[..|s| - 1], key), s[|s| - 1], key);
      assert s == s[..|s| - 1] + [s[|s| - 1]];
    }
  }

  lemma {:induction false} InsertDescAtEnd<T(!new)>(s: seq<T>, x: T, key: T -> real)
    requires forall y :: y in s ==> key(y) >= key(x)
    ensures InsertDesc(s, x, key) == s + [x]
  {
    if s != [] {
      assert s[|s| - 1] in s;
    }
  }

  lemma {:induction false} FilterInsertDesc<T(!new)>(s: seq<T>, x: T, key: T -> real, p: T -> bool)
    requires SortedDesc(s, key)
    ensures Filter(InsertDesc(s, x, key), p)
         == if p(x) then InsertDesc(Filter(s, p), x, key) else Filter(s, p)
  {
    hide Filter;
    if s == [] || key(s[|s| - 1]) >= key(x) {
      FilterLast(s, x, p);
      if p(x) {
        assert forall y :: y in s ==> key(y) >= key(x);
        InsertDescAtEnd(Filter(s, p), x, key);
      }
    } else {
      var s', last := s[..|s| - 1], s[|s| - 1];
      FilterInsertDesc(s', x, key, p);
      FilterLast(InsertDesc(s', x, key), last, p);
      assert s == s' + [last];
      FilterLast(s', last, p);
      if p(last) {
        assert (Filter(s', p) + [last])[..|Filter(s', p)|] == Filter(s', p);
      }
    }
  }

  lemma StableSortLast<T(!new)>(s: seq<T>, x: T, key: T -> real)
    ensures StableSort(s + [x], key) == InsertDesc(StableSort(s, key), x, key)
  {
    assert (s + [x])[..|s|] == s;
  }

  /** Filtering before ORDER BY or after it gives the same list. */
  lemma {:induction false} FilterStableSort<T(!new)>(s: seq<T>, key: T -> real, p: T -> bool)
    ensures Filter(StableSort(s, key), p) == StableSort(Filter(s, p), key)
  {
    if s != [] {
      hide Filter, StableSort, InsertDesc, SortedDesc;
      var s', last := s[..|s| - 1], s[|s| - 1];
      assert s == s' + [last];
      FilterStableSort(s', key, p);
      assert SortedDesc(StableSort(s', key), key) by { StableSortSorts(s', key); }
      FilterInsertDesc(StableSort(s', key), last, key, p);
      StableSortLast(s', last, key);
      FilterLast(s', last, p);
      if p(last) {
        StableSortLast(Filter(s', p), last, key);
      }
    }
  }

  lemma {:induction false} SortedAlready<T(!new)>(s: seq<T>, key: T -> real)
    requires SortedDesc(s, key)
    ensures StableSort(s, key) == s
  {
    if s != [] {
      SortedAlready(s[..|s| - 1], key);
      assert s == s[..|s| - 1] + [s[|s| - 1]];
      InsertDescAtEnd(s[..|s| - 1], s[|s| - 1], key);
    }
  }

  lemma {:induction false} MapInsertDesc<T(!new), U(!new)>(s: seq<T>, x: T, f: T -> U, key: U -> real, key': T -> real)
    requires forall y :: key'(y) == key(f(y))
    ensures InsertDesc(Map(s, f), f(x), key) == Map(InsertDesc(s, x, key'), f)
  {
    if s == [] || key'(s[|s| - 1]) >= key'(x) {
      assert Map(s + [x], f) == Map(s, f) + [f(x)];
    } else {
      var s', last := s[..|s| - 1], s[|s| - 1];
      MapInsertDesc(s', x, f, key, key');
      assert Map(s, f)[..|s| - 1] == Map(s', f);
      assert Map(InsertDesc(s', x, key') + [last], f) == Map(InsertDesc(s', x, key'), f) + [f(last)];
    }
  }

  /** Sorting commutes with any relabelling that keeps the keys. */
  lemma {:induction false} MapStableSort<T(!new), U(!new)>(s: seq<T>, f: T -> U, key: U -> real, key': T -> real)
    requires forall y :: key'(y) == key(f(y))
    ensures StableSort(Map(s, f), key) == Map(StableSort(s, key'), f)
  {
    if s != [] {
      var s', last := s[..|s| - 1], s[|s| - 1];
      assert Map(s, f)[..|s| - 1] == Map(s', f);
      MapStableSort(s', f, key, key');
      MapInsertDesc(StableSort(s', key'), last, f, key, key');
    }
  }

  // ---- lists without repeats ----

  lemma NotInPrefix<T>(s: seq<T>, n: nat)
    requires NoRepeats(s) && n < |s|
    ensures s[n] !in s[..n]
  {
  }

  lemma {:induction false} FilterNoRepeats<T(!new)>(s: seq<T>, p: T -> bool)
    requires NoRepeats(s)
    ensures NoRepeats(Filter(s, p))
  {
    if s != [] {
      var before, last := s[..|s| - 1], s[|s| - 1];
      FilterNoRepeats(before, p);
      assert last !in before;
    }
  }

  lemma {:induction false} InsertNoRepeats<T(!new)>(s: seq<T>, x: T, key: T -> real)
    requires NoRepeats(s) && x !in s
    ensures NoRepeats(InsertDesc(s, x, key))
  {
    if s != [] && key(s[|s| - 1]) < key(x) {
      var before, last := s[..|s| - 1], s[|s| - 1];
      assert last !in before;
      InsertNoRepeats(before, x, key);
    }
  }

  lemma {:induction false} SortNoRepeats<T(!new)>(s: seq<T>, key: T -> real)
    requires NoRepeats(s)
    ensures NoRepeats(StableSort(s, key))
  {
    if s != [] {
      var before, last := s[..|s| - 1], s[|s| - 1];
      assert last !in before;
      SortNoRepeats(before, key);
      InsertNoRepeats(StableSort(before, key), last, key);
    }
  }

  // ---- positions ----

  /** The positions whose element passes. */
  function PositionsWhere<T(!new)>(s: seq<T>, p: T -> bool): set<nat> {
    set i: nat | i < |s| && p(s[i])
  }

  lemma PositionsLast<T(!new)>(s: seq<T>, x: T, p: T -> bool)
    ensures |PositionsWhere(s + [x], p)| == |PositionsWhere(s, p)| + if p(x) then 1 else 0
  {
    var before, after := PositionsWhere(s, p), PositionsWhere(s + [x], p);
    forall i: nat
      ensures i in after <==> i in before || (i == |s| && p(x))
    {
    }
    assert after == if p(x) then before + {|s|} else before;
  }

  /** A filter keeps one element per position that passes. */
  lemma {:induction false} FilterPositions<T(!new)>(s: seq<T>, p: T -> bool)
    ensures |Filter(s, p)| == |PositionsWhere(s, p)|
  {
    if s != [] {
      hide PositionsWhere;
      FilterPositions(s[..|s| - 1], p);
      PositionsLast(s[..|s| - 1], s[|s| - 1], p);
      assert s == s[..|s| - 1] + [s[|s| - 1]];
    }
  }

  /** a comes before b. */
  ghost predicate Precedes<T(!new)>(s: seq<T>, a: T, b: T) {
    exists i, j :: 0 <= i < j < |s| && s[i] == a && s[j] == b
  }

  lemma PrecedesLast<T(!new)>(s: seq<T>, x: T, a: T, b: T)
    ensures Precedes(s + [x], a, b) <==> Precedes(s, a, b) || (a in s && b == x)
  {
    var r := s + [x];
    if Precedes(s, a, b) {
      var i, j :| 0 <= i < j < |s| && s[i] == a && s[j] == b;
      assert r[i] == a && r[j] == b;
    }
    if a in s && b == x {
      var i :| 0 <= i < |s| && s[i] == a;
      assert r[i] == a && r[|s|] == b;
    }
  }

  /** Inserting keeps the order of the others, and x goes before exactly the lower keys. */
  lemma {:induction false} InsertOrder<T(!new)>(s: seq<T>, x: T, key: T -> real, a: T, b: T)
    requires SortedDesc(s, key) && NoRepeats(s) && x !in s
    ensures Precedes(InsertDesc(s, x, key), a, b)
       <==> Precedes(s, a, b) || (a in s && b == x && key(a) >= key(x)) || (a == x && b in s && key(b) < key(x))
  {
    if s == [] || key(s[|s| - 1]) >= key(x) {
      PrecedesLast(s, x, a, b);
      assert forall y :: y in s ==> key(y) >= key(x);
    } else {
      var before, last := s[..|s| - 1], s[|s| - 1];
      assert s == before + [last];
      assert last !in before;
      InsertOrder(before, x, key, a, b);
      PrecedesLast(InsertDesc(before, x, key), last, a, b);
      PrecedesLast(before, last, a, b);
    }
  }

  /** Of two elements the one with the higher key comes first, and of equals the one listed first. */
  lemma {:induction false} StableOrder<T(!new)>(s: seq<T>, key: T -> real, a: T, b: T)
    requires NoRepeats(s)
    ensures Precedes(StableSort(s, key), a, b)
       <==> a in s && b in s && (key(a) > key(b) || (key(a) == key(b) && Precedes(s, a, b)))
  {
    if s != [] {
      var before, last := s[..|s| - 1], s[|s| - 1];
      assert s == before + [last];
      assert last !in before;
      StableOrder(before, key, a, b);
      StableSortSorts(before, key);
      SortNoRepeats(before, key);
      InsertOrder(StableSort(before, key), last, key, a, b);
      PrecedesLast(before, last, a, b);
    }
  }

  /** A filter keeps the order. */
  lemma {:induction false} FilterOrder<T(!new)>(s: seq<T>, p: T -> bool, a: T, b: T)
    ensures Precedes(Filter(s, p), a, b) <==> p(a) && p(b) && Precedes(s, a, b)
  {
    if s != [] {
      var before, last := s[..|s| - 1], s[|s| - 1];
      assert s == before + [last];
      FilterOrder(before, p, a, b);
      PrecedesLast(before, last, a, b);
      if p(last) {
        PrecedesLast(Filter(before, p), last, a, b);
      } else {
        assert Filter(before, p) + [] == Filter(before, p);
      }
    }
  }
}
