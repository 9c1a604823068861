/** Grouping inbox items into sessions: real sessions by their id, the rest by time gaps. */
module Sessions {

  import opened Lists

  /** An inbox item; time in nanoseconds. */
  datatype Item = Item(session: string, prompt: string, time: int, text: string)

  const SECOND := 1_000_000_000
  const GAP := 30 * 60 * SECOND

  function HasPrompt(p: string): Item -> bool { (x: Item) => x.prompt == p }

  function InSession(id: string): Item -> bool { (x: Item) => x.session == id }

  predicate HasSession(x: Item) { x.session != "" }

  predicate NoSession(x: Item) { x.session == "" }

  /** Sorting by this key, highest first, is sorting by time. */
  function Earlier(x: Item): real { -(x.time as real) }

  lemma {:induction false} FilterCount(s: seq<Item>, p: Item -> bool, x: Item)
    ensures multiset(Filter(s, p))[x] == if p(x) then multiset(s)[x] else 0
  {
    if s != [] {
      FilterCount(s[..|s| - 1], p, x);
      assert s == s[..|s| - 1] + [s[|s| - 1]];
    }
  }

  // ---- one session: prompts kept together ----

  /** The prompt ids in the order they are first seen. */
  function Prompts(s: seq<Item>): (r: seq<string>)
    ensures forall p :: p in r <==> exists x :: x in s && x.prompt == p
    ensures forall i, j :: 0 <= i < j < |r| ==> r[i] != r[j]
  {
    if s == [] then []
    else
      var before, last := Prompts(s[..|s| - 1]), s[|s| - 1];
      assert s == s[..|s| - 1] + [last];
      if last.prompt in before then before else before + [last.prompt]
  }

  /** The items of one prompt, oldest first, ties in arrival order. */
  function Bucket(s: seq<Item>, p: string): (r: seq<Item>)
    ensures forall x :: x in r <==> x in s && x.prompt == p
  {
    StableSort(Filter(s, HasPrompt(p)), Earlier)
  }

  function Concat(s: seq<Item>, order: seq<string>): seq<Item> {
    if order == [] then [] else Concat(s, order[..|order| - 1]) + Bucket(s, order[|order| - 1])
  }

  function Arranged(s: seq<Item>): seq<Item> { Concat(s, Prompts(s)) }

  lemma {:induction false} ConcatMembers(s: seq<Item>, order: seq<string>, x: Item)
    ensures x in Concat(s, order) <==> x in s && x.prompt in order
  {
    hide Bucket;
    if order != [] {
      ConcatMembers(s, order[..|order| - 1], x);
      assert order == order[..|order| - 1] + [order[|order| - 1]];
    }
  }

  lemma {:induction false} FilterConcat(s: seq<Item>, order: seq<string>, p: string)
    requires forall i, j :: 0 <= i < j < |order| ==> order[i] != order[j]
    ensures Filter(Concat(s, order), HasPrompt(p)) == if p in order then Bucket(s, p) else []
  {
    hide Bucket;
    if order != [] {
      var before, last := order[..|order| - 1], order[|order| - 1];
      assert order == before + [last];
      FilterConcat(s, before, p);
      FilterAppend(Concat(s, before), Bucket(s, last), HasPrompt(p));
      if p == last {
        forall i | 0 <= i < |Bucket(s, p)|
          ensures HasPrompt(p)(Bucket(s, p)[i])
        {
          assert Bucket(s, p)[i] in Bucket(s, p);
        }
        FilterAll(Bucket(s, p), HasPrompt(p));
      } else {
        FilterNone(Bucket(s, last), HasPrompt(p));
      }
    }
  }

  /** Appending a run of one new prompt adds that prompt to the order. */
  lemma {:induction false} PromptsRun(a: seq<Item>, b: seq<Item>, p: string)
    requires b != [] && (forall x :: x in b ==> x.prompt == p) && p !in Prompts(a)
    ensures Prompts(a + b) == Prompts(a) + [p]
    decreases |b|
  {
    var b' := b[..|b| - 1];
    assert (a + b)[..|a + b| - 1] == a + b';
    assert b[|b| - 1] in b;
    if b' == [] {
      assert a + b' == a;
    } else {
      PromptsRun(a, b', p);
    }
  }

  lemma {:induction false} PromptsConcat(s: seq<Item>, order: seq<string>)
    requires forall i, j :: 0 <= i < j < |order| ==> order[i] != order[j]
    requires forall p :: p in order ==> p in Prompts(s)
    ensures Prompts(Concat(s, order)) == order
  {
    hide Bucket;
    if order != [] {
      var before, last := order[..|order| - 1], order[|order| - 1];
      assert order == before + [last];
      PromptsConcat(s, before);
      assert last in order && last in Prompts(s);
      var x :| x in s && x.prompt == last;
      assert x in Bucket(s, last);
      PromptsRun(Concat(s, before), Bucket(s, last), last);
    }
  }

  ghost predicate Contiguous(s: seq<Item>) {
    forall i, j, k :: 0 <= i < j < k < |s| && s[i].prompt == s[k].prompt ==> s[j].prompt == s[i].prompt
  }

  lemma {:induction false} ConcatContiguous(s: seq<Item>, order: seq<string>)
    requires forall i, j :: 0 <= i < j < |order| ==> order[i] != order[j]
    ensures Contiguous(Concat(s, order))
  {
    hide Bucket;
    if order != [] {
      var before, last := order[..|order| - 1], order[|order| - 1];
      ConcatContiguous(s, before);
      var a, b := Concat(s, before), Bucket(s, last);
      forall i | 0 <= i < |a|
        ensures a[i].prompt != last
      {
        ConcatMembers(s, before, a[i]);
      }
      assert forall i :: 0 <= i < |b| ==> b[i] in b && b[i].prompt == last;
    }
  }

  /** A session is permuted so that prompts are contiguous, in the order they were first seen,
      and the items of each prompt are in time order, ties as they arrived. */
  lemma ArrangedLaws(s: seq<Item>)
    ensures multiset(Arranged(s)) == multiset(s)
    ensures Contiguous(Arranged(s)) && Prompts(Arranged(s)) == Prompts(s)
    ensures forall p :: Filter(Arranged(s), HasPrompt(p)) == StableSort(Filter(s, HasPrompt(p)), Earlier)
  {
    var r := Arranged(s);
    PromptsConcat(s, Prompts(s));
    ConcatContiguous(s, Prompts(s));
    forall p
      ensures Filter(r, HasPrompt(p)) == StableSort(Filter(s, HasPrompt(p)), Earlier)
    {
      FilterConcat(s, Prompts(s), p);
      if p !in Prompts(s) {
        FilterNone(s, HasPrompt(p));
      }
    }
    forall x
      ensures multiset(r)[x] == multiset(s)[x]
    {
      FilterCount(r, HasPrompt(x.prompt), x);
      FilterCount(s, HasPrompt(x.prompt), x);
      StableSortSorts(Filter(s, HasPrompt(x.prompt)), Earlier);
    }
  }

  lemma ArrangedShort(s: seq<Item>)
    requires |s| <= 1
    ensures Arranged(s) == s
  {
    hide Arranged;
    ArrangedLaws(s);
    var r := Arranged(s);
    assert |multiset(r)| == |multiset(s)|;
    if |s| == 1 {
      assert r[0] in multiset(s);
    }
  }

  method FillBuckets(items: seq<Item>) returns (order: seq<string>, buckets: map<string, seq<Item>>)
    ensures order == Prompts(items)
    ensures forall p :: p in buckets <==> p in order
    ensures forall p :: p in buckets ==> buckets[p] == Filter(items, HasPrompt(p))
  {
    order, buckets := [], map[];
    for i := 0 to |items|
      invariant order == Prompts(items[..i])
      invariant forall p :: p in buckets <==> p in order
      invariant forall p :: p in buckets ==> buckets[p] == Filter(items[..i], HasPrompt(p))
    {
      var x := items[i];
      assert items[..i + 1][..i] == items[..i];
      if x.prompt !in buckets {
        FilterNone(items[..i], HasPrompt(x.prompt));
        order := order + [x.prompt];
        buckets := buckets[x.prompt := []];
      }
      buckets := buckets[x.prompt := buckets[x.prompt] + [x]];
      forall p | p in buckets
        ensures buckets[p] == Filter(items[..i + 1], HasPrompt(p))
      {
        FilterStep(items, i, HasPrompt(p));
      }
    }
    assert items[..|items|] == items;
  }

  method SortBuckets(buckets: map<string, seq<Item>>) returns (r: map<string, seq<Item>>)
    ensures r.Keys == buckets.Keys
    ensures forall p :: p in buckets ==> r[p] == StableSort(buckets[p], Earlier)
  {
    hide StableSort;
    r := buckets;
    var left := buckets.Keys;
    while left != {}
      invariant left <= buckets.Keys == r.Keys
      invariant forall p :: p in left ==> r[p] == buckets[p]
      invariant forall p :: p in buckets && p !in left ==> r[p] == StableSort(buckets[p], Earlier)
      decreases |left|
    {
      var p :| p in left;
      r := r[p := StableSort(r[p], Earlier)];
      left := left - {p};
    }
  }

  method JoinBuckets(ghost items: seq<Item>, order: seq<string>, buckets: map<string, seq<Item>>)
    returns (r: seq<Item>)
    requires forall p :: p in order ==> p in buckets && buckets[p] == Bucket(items, p)
    ensures r == Concat(items, order)
  {
    hide Bucket;
    r := [];
    for i := 0 to |order|
      invariant r == Concat(items, order[..i])
    {
      assert order[..i + 1][..i] == order[..i];
      r := r + buckets[order[i]];
    }
    assert order[..|order|] == order;
  }

  method SortSessionByPrompt(items: seq<Item>) returns (r: seq<Item>)
    ensures r == Arranged(items)
  {
    if |items| <= 1 {
      ArrangedShort(items);
      return items;
    }
    hide Prompts, StableSort, Concat;
    var order, buckets := FillBuckets(items);
    buckets := SortBuckets(buckets);
    r := JoinBuckets(items, order, buckets);
  }

  // ---- all items: sessions by id, the rest by gaps ----

  /** The second a time stamp names. */
  function SecondOf(x: Item): int { x.time / SECOND }

  /** The first index of the run of close items that index i belongs to. */
  function RunStart(w: seq<Item>, i: nat): (r: nat)
    requires i < |w|
    ensures r <= i
  {
    if i == 0 || w[i].time - w[i - 1].time > GAP then i else RunStart(w, i - 1)
  }

  /** The group id of a sessionless item; stamp formats a second. */
  function GroupId(w: seq<Item>, i: nat, stamp: int -> string): string
    requires i < |w|
  {
    stamp(SecondOf(w[RunStart(w, i)]))
  }

  /** Those of the first n sessionless items whose group id is k. */
  function TimePart(w: seq<Item>, n: nat, stamp: int -> string, k: string): seq<Item>
    requires n <= |w|
  {
    if n == 0 then []
    else TimePart(w, n - 1, stamp, k) + (if GroupId(w, n - 1, stamp) == k then [w[n - 1]] else [])
  }

  /** The items of session k. Only items with a session id come here. */
  function SessionPart(items: seq<Item>, k: string): seq<Item> {
    Filter(Filter(items, HasSession), InSession(k))
  }

  function GroupOf(items: seq<Item>, w: seq<Item>, stamp: int -> string, k: string): seq<Item> {
    Arranged(SessionPart(items, k)) + TimePart(w, |w|, stamp, k)
  }

  ghost predicate InTimeOrder(w: seq<Item>) {
    forall i, j :: 0 <= i < j < |w| ==> w[i].time <= w[j].time
  }

  /** w lists the sessionless items by time; ties may come in any order. */
  ghost predicate ListsRest(w: seq<Item>, items: seq<Item>) {
    InTimeOrder(w) && multiset(w) == multiset(Filter(items, NoSession))
  }

  type Groups = map<string, seq<Item>>

  /** groups[k] in Go: a missing group is empty. */
  function Get(groups: Groups, k: string): seq<Item> { if k in groups then groups[k] else [] }

  ghost predicate NoneEmpty(groups: Groups) { forall k :: k in groups ==> groups[k] != [] }

  function Add(groups: Groups, k: string, x: Item): (r: Groups)
    ensures forall j :: Get(r, j) == if j == k then Get(groups, j) + [x] else Get(groups, j)
    ensures NoneEmpty(groups) ==> NoneEmpty(r)
  {
    groups[k := Get(groups, k) + [x]]
  }

  ghost predicate Grouped(groups: Groups, items: seq<Item>, w: seq<Item>, stamp: int -> string) {
    NoneEmpty(groups) && forall k :: Get(groups, k) == GroupOf(items, w, stamp, k)
  }

  /** sort.Slice by time: callers learn nothing about the order of ties. */
  method SortByTime(s: seq<Item>) returns (w: seq<Item>)
    ensures InTimeOrder(w) && multiset(w) == multiset(s)
  {
    StableSortSorts(s, Earlier);
    w := StableSort(s, Earlier);
    forall i, j | 0 <= i < j < |w|
      ensures w[i].time <= w[j].time
    {
      assert Earlier(w[i]) >= Earlier(w[j]);
    }
  }

  method FillSessions(withSession: seq<Item>) returns (groups: Groups)
    ensures NoneEmpty(groups) && forall k :: Get(groups, k) == Filter(withSession, InSession(k))
  {
    hide Get, NoneEmpty;
    groups := NoGroups();
    for i := 0 to |withSession|
      invariant NoneEmpty(groups) && forall k :: Get(groups, k) == Filter(withSession[..i], InSession(k))
    {
      groups := Add(groups, withSession[i].session, withSession[i]);
      forall k
        ensures Get(groups, k) == Filter(withSession[..i + 1], InSession(k))
      {
        FilterStep(withSession, i, InSession(k));
      }
    }
    assert withSession[..|withSession|] == withSession;
  }

  function NoGroups(): (r: Groups)
    ensures NoneEmpty(r) && forall k :: Get(r, k) == []
  {
    map[]
  }

  method SortEach(groups: Groups) returns (r: Groups)
    ensures r.Keys == groups.Keys
    ensures forall k :: k in groups ==> r[k] == Arranged(groups[k])
  {
    hide Arranged;
    r := groups;
    var left := groups.Keys;
    while left != {}
      invariant left <= groups.Keys == r.Keys
      invariant forall k :: k in left ==> r[k] == groups[k]
      invariant forall k :: k in groups && k !in left ==> r[k] == Arranged(groups[k])
      decreases |left|
    {
      var k :| k in left;
      var sorted := SortSessionByPrompt(r[k]);
      r := r[k := sorted];
      left := left - {k};
    }
  }

  lemma ArrangedEmpty(s: seq<Item>)
    ensures Arranged(s) == [] <==> s == []
  {
    hide Arranged;
    ArrangedLaws(s);
    assert |multiset(Arranged(s))| == |multiset(s)|;
  }

  method SortSessions(groups: Groups) returns (r: Groups)
    requires NoneEmpty(groups)
    ensures NoneEmpty(r) && forall k :: Get(r, k) == Arranged(Get(groups, k))
  {
    hide Arranged;
    r := SortEach(groups);
    forall k
      ensures Get(r, k) == Arranged(Get(groups, k)) && (k in r ==> r[k] != [])
    {
      ArrangedEmpty(Get(groups, k));
    }
  }

  lemma TimePartNext(w: seq<Item>, i: nat, stamp: int -> string, k: string)
    requires i < |w|
    ensures TimePart(w, i + 1, stamp, k)
         == if GroupId(w, i, stamp) == k then TimePart(w, i, stamp, k) + [w[i]] else TimePart(w, i, stamp, k)
  {
  }

  /** r is groups after the first n sessionless items. */
  ghost predicate Appended(r: Groups, groups: Groups, w: seq<Item>, n: nat, stamp: int -> string)
    requires n <= |w|
  {
    NoneEmpty(r) && forall k :: Get(r, k) == Get(groups, k) + TimePart(w, n, stamp, k)
  }

  lemma AppendedNone(groups: Groups, w: seq<Item>, stamp: int -> string)
    requires NoneEmpty(groups)
    ensures Appended(groups, groups, w, 0, stamp)
  {
    hide Get, NoneEmpty;
  }

  lemma GroupIdNext(w: seq<Item>, i: nat, stamp: int -> string)
    requires i < |w|
    ensures GroupId(w, i, stamp)
         == if i == 0 || w[i].time - w[i - 1].time > GAP then stamp(SecondOf(w[i])) else GroupId(w, i - 1, stamp)
  {
  }

  lemma AppendedNext(r: Groups, groups: Groups, w: seq<Item>, n: nat, stamp: int -> string)
    requires n < |w| && Appended(r, groups, w, n, stamp)
    ensures Appended(Add(r, GroupId(w, n, stamp), w[n]), groups, w, n + 1, stamp)
  {
    hide Get, TimePart, NoneEmpty, GroupId;
    var r' := Add(r, GroupId(w, n, stamp), w[n]);
    forall k
      ensures Get(r', k) == Get(groups, k) + TimePart(w, n + 1, stamp, k)
    {
      TimePartNext(w, n, stamp, k);
      assert Get(r, k) == Get(groups, k) + TimePart(w, n, stamp, k);
    }
  }

  method AppendByGap(groups: Groups, w: seq<Item>, stamp: int -> string) returns (r: Groups)
    requires w != [] && NoneEmpty(groups)
    ensures Appended(r, groups, w, |w|, stamp)
  {
    hide *;
    AppendedNone(groups, w, stamp);
    GroupIdNext(w, 0, stamp);
    var groupID := stamp(SecondOf(w[0]));
    AppendedNext(groups, groups, w, 0, stamp);
    r := Add(groups, groupID, w[0]);
    for i := 1 to |w|
      invariant groupID == GroupId(w, i - 1, stamp)
      invariant Appended(r, groups, w, i, stamp)
    {
      var prev, curr := w[i - 1], w[i];
      if curr.time - prev.time > GAP {
        groupID := stamp(SecondOf(curr));
      }
      GroupIdNext(w, i, stamp);
      AppendedNext(r, groups, w, i, stamp);
      r := Add(r, groupID, curr);
    }
  }

  method SplitBySession(items: seq<Item>) returns (withSession: seq<Item>, withoutSession: seq<Item>)
    ensures withSession == Filter(items, HasSession) && withoutSession == Filter(items, NoSession)
  {
    withSession, withoutSession := [], [];
    for i := 0 to |items|
      invariant withSession == Filter(items[..i], HasSession)
      invariant withoutSession == Filter(items[..i], NoSession)
    {
      FilterStep(items, i, HasSession);
      FilterStep(items, i, NoSession);
      if items[i].session != "" {
        withSession := withSession + [items[i]];
      } else {
        withoutSession := withoutSession + [items[i]];
      }
    }
    assert items[..|items|] == items;
  }

  method GroupBySession(items: seq<Item>, stamp: int -> string) returns (groups: Groups)
    ensures exists w :: ListsRest(w, items) && Grouped(groups, items, w, stamp)
  {
    hide Filter, Arranged, Get, NoneEmpty;
    var withSession, w := SplitBySession(items);
    assert w == [] ==> InTimeOrder(w);
    groups := FillSessions(withSession);
    groups := SortSessions(groups);
    if |w| > 0 {
      w := SortByTime(w);
      groups := AppendByGap(groups, w, stamp);
    }
    assert ListsRest(w, items) && Grouped(groups, items, w, stamp);
  }

  // ---- what grouping promises ----

  /** The sessionless items, each at most half an hour from the next. */
  ghost predicate Chain(items: seq<Item>, path: seq<Item>) {
    && path != []
    && (forall k :: 0 <= k < |path| ==> path[k] in items && path[k].session == "")
    && (forall k :: 0 <= k < |path| - 1 ==>
          -1_800 * 1_000_000_000 <= path[k + 1].time - path[k].time <= 1_800 * 1_000_000_000)
  }

  /** Same connected component of "at most half an hour apart". */
  ghost predicate Connected(items: seq<Item>, x: Item, y: Item) {
    exists path :: Chain(items, path) && path[0] == x && path[|path| - 1] == y
  }

  lemma RestMember(w: seq<Item>, items: seq<Item>, x: Item)
    requires ListsRest(w, items)
    ensures x in w <==> x in items && x.session == ""
  {
    var rest := Filter(items, NoSession);
    assert x in w <==> x in multiset(w);
    assert x in rest <==> x in multiset(rest);
    assert x in rest <==> x in items && NoSession(x);
  }

  lemma {:induction false} NearSame(w: seq<Item>, i: nat, j: nat)
    requires i <= j < |w| && InTimeOrder(w) && w[j].time - w[i].time <= GAP
    ensures RunStart(w, i) == RunStart(w, j)
  {
    if i < j {
      NearSame(w, i, j - 1);
    }
  }

  lemma {:induction false} RunIsClose(w: seq<Item>, i: nat, j: nat, k: nat)
    requires i < k <= j < |w| && RunStart(w, i) == RunStart(w, j)
    ensures w[k].time - w[k - 1].time <= GAP
    decreases j
  {
    if k < j {
      RunIsClose(w, i, j - 1, k);
    }
  }

  lemma {:induction false} StartsAfterGap(w: seq<Item>, i: nat)
    requires i < |w|
    ensures var s := RunStart(w, i); s == 0 || w[s].time - w[s - 1].time > GAP
  {
    if i > 0 && w[i].time - w[i - 1].time <= GAP {
      StartsAfterGap(w, i - 1);
    }
  }

  lemma DifferentSeconds(x: Item, y: Item)
    requires y.time - x.time > GAP
    ensures SecondOf(x) != SecondOf(y)
  {
  }

  /** Different runs start in different seconds. */
  lemma SameIdSameRun(w: seq<Item>, i: nat, j: nat, stamp: int -> string)
    requires i < |w| && j < |w| && InTimeOrder(w)
    requires forall a, b :: stamp(a) == stamp(b) ==> a == b
    requires GroupId(w, i, stamp) == GroupId(w, j, stamp)
    ensures RunStart(w, i) == RunStart(w, j)
  {
    hide SecondOf, RunStart;
    var a, b := RunStart(w, i), RunStart(w, j);
    StartsAfterGap(w, i);
    StartsAfterGap(w, j);
    if a < b {
      DifferentSeconds(w[a], w[b]);
    } else if b < a {
      DifferentSeconds(w[b], w[a]);
    }
  }

  lemma {:induction false} InTimePart(w: seq<Item>, n: nat, stamp: int -> string, k: string, x: Item)
    requires n <= |w|
    ensures x in TimePart(w, n, stamp, k) <==> exists i :: 0 <= i < n && w[i] == x && GroupId(w, i, stamp) == k
  {
    hide GroupId;
    if n > 0 {
      InTimePart(w, n - 1, stamp, k, x);
    }
  }

  lemma {:induction false} ChainSameRun(w: seq<Item>, items: seq<Item>, path: seq<Item>, i: nat, j: nat)
    requires ListsRest(w, items) && Chain(items, path)
    requires i < |w| && j < |w| && w[i] == path[0] && w[j] == path[|path| - 1]
    ensures RunStart(w, i) == RunStart(w, j)
    decreases |path|
  {
    hide RunStart;
    if |path| == 1 {
      NearSame(w, if i <= j then i else j, if i <= j then j else i);
    } else {
      RestMember(w, items, path[1]);
      var m :| 0 <= m < |w| && w[m] == path[1];
      NearSame(w, if i <= m then i else m, if i <= m then m else i);
      ChainSameRun(w, items, path[1..], m, j);
    }
  }

  lemma ConnectedSameRun(w: seq<Item>, items: seq<Item>, i: nat, j: nat)
    requires ListsRest(w, items) && i < |w| && j < |w| && Connected(items, w[i], w[j])
    ensures RunStart(w, i) == RunStart(w, j)
  {
    var path :| Chain(items, path) && path[0] == w[i] && path[|path| - 1] == w[j];
    ChainSameRun(w, items, path, i, j);
  }

  /** One more close item extends a connection, at either end. */
  lemma ConnectedAfter(items: seq<Item>, x: Item, y: Item, z: Item)
    requires z in items && z.session == "" && -GAP <= z.time - y.time <= GAP && Connected(items, x, y)
    ensures Connected(items, x, z)
  {
    var path :| Chain(items, path) && path[0] == x && path[|path| - 1] == y;
    var longer := path + [z];
    assert Chain(items, longer) && longer[0] == x && longer[|longer| - 1] == z;
  }

  lemma ConnectedBefore(items: seq<Item>, x: Item, y: Item, z: Item)
    requires z in items && z.session == "" && -GAP <= y.time - z.time <= GAP && Connected(items, y, x)
    ensures Connected(items, z, x)
  {
    var path :| Chain(items, path) && path[0] == y && path[|path| - 1] == x;
    var longer := [z] + path;
    assert Chain(items, longer) && longer[0] == z && longer[|longer| - 1] == x;
  }

  lemma {:induction false} SameRunConnected(w: seq<Item>, items: seq<Item>, i: nat, j: nat)
    requires ListsRest(w, items) && i <= j < |w| && RunStart(w, i) == RunStart(w, j)
    ensures Connected(items, w[i], w[j]) && Connected(items, w[j], w[i])
    decreases j
  {
    RestMember(w, items, w[j]);
    if i < j {
      RunIsClose(w, i, j, j);
      SameRunConnected(w, items, i, j - 1);
      ConnectedAfter(items, w[i], w[j - 1], w[j]);
      ConnectedBefore(items, w[i], w[j - 1], w[j]);
    } else {
      assert Chain(items, [w[i]]);
    }
  }

  /** A sessionless item can only be in a group through its run. */
  lemma SessionlessHome(groups: Groups, items: seq<Item>, w: seq<Item>, stamp: int -> string, k: string, x: Item)
    requires ListsRest(w, items) && Grouped(groups, items, w, stamp) && x.session == ""
    ensures x in Get(groups, k) <==> x in TimePart(w, |w|, stamp, k)
  {
    hide Get, TimePart;
    var part := SessionPart(items, k);
    ConcatMembers(part, Prompts(part), x);
  }

  /** Two sessionless items share a group exactly when they are connected. */
  lemma SameGroupIffConnected(groups: Groups, items: seq<Item>, w: seq<Item>, stamp: int -> string, x: Item, y: Item)
    requires ListsRest(w, items) && Grouped(groups, items, w, stamp)
    requires forall a, b :: stamp(a) == stamp(b) ==> a == b
    requires x in items && x.session == "" && y in items && y.session == ""
    ensures (exists k :: x in Get(groups, k) && y in Get(groups, k)) <==> Connected(items, x, y)
  {
    hide Get, GroupId, Connected, ListsRest, Grouped;
    RestMember(w, items, x);
    RestMember(w, items, y);
    if k :| x in Get(groups, k) && y in Get(groups, k) {
      var i := HomeRun(groups, items, w, stamp, k, x);
      var j := HomeRun(groups, items, w, stamp, k, y);
      SameRun(w, items, i, j, stamp);
    }
    if Connected(items, x, y) {
      var i :| 0 <= i < |w| && w[i] == x;
      var j :| 0 <= j < |w| && w[j] == y;
      var k := GroupId(w, i, stamp);
      SameRun(w, items, i, j, stamp);
      SessionlessHome(groups, items, w, stamp, k, x);
      SessionlessHome(groups, items, w, stamp, k, y);
      InTimePart(w, |w|, stamp, k, x);
      InTimePart(w, |w|, stamp, k, y);
    }
  }

  lemma SameRun(w: seq<Item>, items: seq<Item>, i: nat, j: nat, stamp: int -> string)
    requires ListsRest(w, items) && i < |w| && j < |w|
    requires forall a, b :: stamp(a) == stamp(b) ==> a == b
    ensures GroupId(w, i, stamp) == GroupId(w, j, stamp) <==> Connected(items, w[i], w[j])
  {
    hide RunStart, Connected, SecondOf;
    if GroupId(w, i, stamp) == GroupId(w, j, stamp) {
      SameIdSameRun(w, i, j, stamp);
      SameRunConnected(w, items, if i <= j then i else j, if i <= j then j else i);
    }
    if Connected(items, w[i], w[j]) {
      ConnectedSameRun(w, items, i, j);
    }
  }

  lemma HomeRun(groups: Groups, items: seq<Item>, w: seq<Item>, stamp: int -> string, k: string, x: Item)
    returns (i: nat)
    requires ListsRest(w, items) && Grouped(groups, items, w, stamp) && x.session == "" && x in Get(groups, k)
    ensures i < |w| && w[i] == x && GroupId(w, i, stamp) == k
  {
    hide Get, GroupId, Grouped, ListsRest;
    SessionlessHome(groups, items, w, stamp, k, x);
    InTimePart(w, |w|, stamp, k, x);
    i :| 0 <= i < |w| && w[i] == x && GroupId(w, i, stamp) == k;
  }

  lemma TimePartEmpty(w: seq<Item>, stamp: int -> string, k: string)
    ensures TimePart(w, 0, stamp, k) == []
  {
  }

  lemma CountLast(s: seq<Item>, y: Item, x: Item)
    ensures multiset(s + [y])[x] == if x == y then multiset(s)[x] + 1 else multiset(s)[x]
  {
  }

  /** The group of an item holds all its equals. */
  lemma {:induction false} TimePartCount(w: seq<Item>, n: nat, stamp: int -> string, i: nat)
    requires n <= |w| && i < |w| && InTimeOrder(w)
    ensures multiset(TimePart(w, n, stamp, GroupId(w, i, stamp)))[w[i]] == multiset(w[..n])[w[i]]
  {
    hide *;
    var x, k := w[i], GroupId(w, i, stamp);
    if n == 0 {
      TimePartEmpty(w, stamp, k);
      assert w[..0] == [];
    } else {
      var y := w[n - 1];
      TimePartCount(w, n - 1, stamp, i);
      TimePartNext(w, n - 1, stamp, k);
      CountLast(TimePart(w, n - 1, stamp, k), y, x);
      CountLast(w[..n - 1], y, x);
      assert w[..n] == w[..n - 1] + [y];
      if y == x {
        EqualItemsSameId(w, i, n - 1, stamp);
      }
    }
  }

  lemma EqualItemsSameId(w: seq<Item>, i: nat, j: nat, stamp: int -> string)
    requires i < |w| && j < |w| && InTimeOrder(w) && w[i] == w[j]
    ensures GroupId(w, i, stamp) == GroupId(w, j, stamp)
  {
    NearSame(w, if i <= j then i else j, if i <= j then j else i);
  }

  lemma SessionPartCount(items: seq<Item>, k: string, x: Item)
    ensures multiset(Arranged(SessionPart(items, k)))[x]
         == if x.session != "" && k == x.session then multiset(items)[x] else 0
  {
    hide Arranged, Filter;
    ArrangedLaws(SessionPart(items, k));
    FilterCount(items, HasSession, x);
    FilterCount(Filter(items, HasSession), InSession(k), x);
  }

  lemma RestCount(w: seq<Item>, items: seq<Item>, x: Item)
    requires ListsRest(w, items)
    ensures multiset(w)[x] == if x.session == "" then multiset(items)[x] else 0
  {
    hide Filter;
    FilterCount(items, NoSession, x);
  }

  /** No item is lost, doubled or split between groups, whatever the ids are. */
  lemma ItemsConserved(groups: Groups, items: seq<Item>, w: seq<Item>, stamp: int -> string, x: Item)
    returns (home: string)
    requires ListsRest(w, items) && Grouped(groups, items, w, stamp)
    ensures forall k :: multiset(Get(groups, k))[x] == if k == home then multiset(items)[x] else 0
  {
    hide Get, Arranged, TimePart, GroupId, SessionPart;
    RestCount(w, items, x);
    var i := 0;
    home := x.session;
    if x in w {
      i :| 0 <= i < |w| && w[i] == x;
      home := GroupId(w, i, stamp);
    }
    forall k
      ensures multiset(Get(groups, k))[x] == if k == home then multiset(items)[x] else 0
    {
      assert Get(groups, k) == Arranged(SessionPart(items, k)) + TimePart(w, |w|, stamp, k);
      hide ListsRest, Grouped;
      SessionPartCount(items, k, x);
      RestPartCount(w, stamp, k, x, i);
    }
  }

  lemma RestPartCount(w: seq<Item>, stamp: int -> string, k: string, x: Item, i: nat)
    requires InTimeOrder(w) && (x in w ==> i < |w| && w[i] == x)
    ensures multiset(TimePart(w, |w|, stamp, k))[x] == if x in w && k == GroupId(w, i, stamp) then multiset(w)[x] else 0
  {
    hide TimePart, GroupId, InTimeOrder;
    InTimePart(w, |w|, stamp, k, x);
    if x in w {
      TimePartCount(w, |w|, stamp, i);
      assert w[..|w|] == w;
      if j: nat :| j < |w| && w[j] == x && GroupId(w, j, stamp) == k {
        EqualItemsSameId(w, i, j, stamp);
      }
    }
  }

  /** Some run of sessionless items starts in the second that the id stamps. */
  ghost predicate Stamped(items: seq<Item>, stamp: int -> string, id: string) {
    exists x :: x in items && StartsRun(items, x) && stamp(SecondOf(x)) == id
  }

  /** A sessionless item with no sessionless item in the half hour before it. */
  ghost predicate StartsRun(items: seq<Item>, x: Item) {
    x.session == "" && forall y :: y in items && y.session == "" ==>
      !(x.time - 1_800 * 1_000_000_000 <= y.time < x.time)
  }

  /** A run's first time is the time of any item that could start it. */
  lemma {:induction false} SameTimeAsStart(w: seq<Item>, k: nat)
    requires k < |w| && InTimeOrder(w)
    requires forall j :: 0 <= j < |w| ==> !(w[k].time - GAP <= w[j].time < w[k].time)
    ensures w[RunStart(w, k)].time == w[k].time
  {
    if k > 0 && w[k].time - w[k - 1].time <= GAP {
      SameTimeAsStart(w, k - 1);
    }
  }

  lemma FirstOfRun(w: seq<Item>, items: seq<Item>, i: nat)
    requires ListsRest(w, items) && i < |w|
    ensures var x := w[RunStart(w, i)]; x in items && StartsRun(items, x)
  {
    hide RunStart;
    var s := RunStart(w, i);
    StartsAfterGap(w, i);
    RestMember(w, items, w[s]);
    forall y | y in items && y.session == ""
      ensures !(w[s].time - GAP <= y.time < w[s].time)
    {
      RestMember(w, items, y);
      var j :| 0 <= j < |w| && w[j] == y;
    }
  }

  lemma StampedIff(w: seq<Item>, items: seq<Item>, stamp: int -> string, id: string)
    requires ListsRest(w, items)
    ensures Stamped(items, stamp, id) <==> exists i :: 0 <= i < |w| && GroupId(w, i, stamp) == id
  {
    hide ListsRest, RunStart, SecondOf;
    if i :| 0 <= i < |w| && GroupId(w, i, stamp) == id {
      FirstOfRun(w, items, i);
    }
    if Stamped(items, stamp, id) {
      var x :| x in items && StartsRun(items, x) && stamp(SecondOf(x)) == id;
      RestMember(w, items, x);
      var k :| 0 <= k < |w| && w[k] == x;
      forall j | 0 <= j < |w|
        ensures !(w[k].time - GAP <= w[j].time < w[k].time)
      {
        RestMember(w, items, w[j]);
      }
      OrderOf(w, items);
      SameTimeAsStart(w, k);
      SameSecond(w[RunStart(w, k)], x);
      assert GroupId(w, k, stamp) == id;
    }
  }

  lemma OrderOf(w: seq<Item>, items: seq<Item>)
    requires ListsRest(w, items)
    ensures InTimeOrder(w)
  {
  }

  lemma SameSecond(x: Item, y: Item)
    requires x.time == y.time
    ensures SecondOf(x) == SecondOf(y)
  {
  }

  /** A real session's group is its own items, arranged, exactly when no run of sessionless items
      starts in the second that its id stamps. */
  lemma SessionGroupIff(groups: Groups, items: seq<Item>, w: seq<Item>, stamp: int -> string, id: string)
    requires ListsRest(w, items) && Grouped(groups, items, w, stamp) && id != ""
    ensures Get(groups, id) == Arranged(Filter(items, InSession(id))) <==> !Stamped(items, stamp, id)
  {
    hide *;
    GroupParts(groups, items, w, stamp, id);
    StampedIff(w, items, stamp, id);
    if i :| 0 <= i < |w| && GroupId(w, i, stamp) == id {
      InTimePart(w, |w|, stamp, id, w[i]);
      assert |TimePart(w, |w|, stamp, id)| > 0;
    } else {
      NoneStamped(w, |w|, stamp, id);
    }
  }

  lemma GroupParts(groups: Groups, items: seq<Item>, w: seq<Item>, stamp: int -> string, id: string)
    requires Grouped(groups, items, w, stamp) && id != ""
    ensures Get(groups, id) == Arranged(Filter(items, InSession(id))) + TimePart(w, |w|, stamp, id)
  {
    hide Get, Arranged, Filter, TimePart, NoneEmpty;
    FilterTwice(items, HasSession, InSession(id), InSession(id));
  }

  /** What the group of such a session looks like. */
  lemma SessionGroup(groups: Groups, items: seq<Item>, w: seq<Item>, stamp: int -> string, id: string)
    requires ListsRest(w, items) && Grouped(groups, items, w, stamp)
    requires id != "" && !Stamped(items, stamp, id)
    ensures var own := Filter(items, InSession(id));
            && multiset(Get(groups, id)) == multiset(own)
            && Contiguous(Get(groups, id)) && Prompts(Get(groups, id)) == Prompts(own)
            && forall p :: Filter(Get(groups, id), HasPrompt(p)) == StableSort(Filter(own, HasPrompt(p)), Earlier)
  {
    hide *;
    SessionGroupIff(groups, items, w, stamp, id);
    ArrangedLaws(Filter(items, InSession(id)));
  }

  /** Two items at the epoch, one of them in a session whose id is that second's stamp: the session
      gets the other item as well. */
  lemma StampedSessionTakesOthers(groups: Groups, w: seq<Item>, stamp: int -> string)
    requires stamp(0) != ""
    requires var items := [Item(stamp(0), "", 0, "a"), Item("", "", 0, "b")];
      ListsRest(w, items) && Grouped(groups, items, w, stamp)
    ensures Item("", "", 0, "b") in Get(groups, stamp(0))
    ensures Stamped([Item(stamp(0), "", 0, "a"), Item("", "", 0, "b")], stamp, stamp(0))
  {
    hide ListsRest, Grouped, Get, GroupId;
    var a, b := Item(stamp(0), "", 0, "a"), Item("", "", 0, "b");
    assert StartsRun([a, b], b) && SecondOf(b) == 0;
    StampedIff(w, [a, b], stamp, stamp(0));
    var i :| 0 <= i < |w| && GroupId(w, i, stamp) == stamp(0);
    RestMember(w, [a, b], w[i]);
    assert w[i] == b;
    InTimePart(w, |w|, stamp, stamp(0), b);
    SessionlessHome(groups, [a, b], w, stamp, stamp(0), b);
  }

  lemma {:induction false} NoneStamped(w: seq<Item>, n: nat, stamp: int -> string, id: string)
    requires n <= |w| && forall i :: 0 <= i < n ==> GroupId(w, i, stamp) != id
    ensures TimePart(w, n, stamp, id) == []
  {
    hide GroupId;
    if n > 0 {
      NoneStamped(w, n - 1, stamp, id);
    }
  }

  function AtTime(p: string, time: int): Item -> bool { (x: Item) => x.prompt == p && x.time == time }

  lemma BucketOrder(s: seq<Item>, p: string)
    ensures forall i, j :: 0 <= i < j < |Bucket(s, p)| ==> Bucket(s, p)[i].time <= Bucket(s, p)[j].time
  {
    hide StableSort;
    StableSortSorts(Filter(s, HasPrompt(p)), Earlier);
    forall i, j | 0 <= i < j < |Bucket(s, p)|
      ensures Bucket(s, p)[i].time <= Bucket(s, p)[j].time
    {
      assert Earlier(Bucket(s, p)[i]) >= Earlier(Bucket(s, p)[j]);
    }
  }

  /** In an arranged session the items of one prompt stand in time order, and those of one prompt and
      one time as they arrived. */
  lemma ArrangedOrder(s: seq<Item>, p: string, time: int)
    ensures var bucket := Filter(Arranged(s), HasPrompt(p));
      forall i, j :: 0 <= i < j < |bucket| ==> bucket[i].time <= bucket[j].time
    ensures Filter(Arranged(s), AtTime(p, time)) == Filter(s, AtTime(p, time))
  {
    hide Arranged, StableSort, Filter;
    ArrangedLaws(s);
    BucketOrder(s, p);
    assert Filter(Arranged(s), HasPrompt(p)) == Bucket(s, p);
    var own := Filter(s, HasPrompt(p));
    SameTime(Arranged(s), p, time);
    SameTime(s, p, time);
    FilterStableSort(own, Earlier, AtTime(p, time));
    var equal := Filter(own, AtTime(p, time));
    assert SortedDesc(equal, Earlier) by {
      forall i, j | 0 <= i < j < |equal|
        ensures Earlier(equal[i]) >= Earlier(equal[j])
      {
        assert equal[i] in equal && equal[j] in equal;
      }
    }
    SortedAlready(equal, Earlier);
  }

  lemma SameTime(s: seq<Item>, p: string, time: int)
    ensures Filter(Filter(s, HasPrompt(p)), AtTime(p, time)) == Filter(s, AtTime(p, time))
  {
    FilterTwice(s, HasPrompt(p), AtTime(p, time), AtTime(p, time));
  }
}
