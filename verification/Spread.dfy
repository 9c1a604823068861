/** Picking memories spread over their dates, one per date and round. */
module Spread {
  import opened Lists

  /** The positions before k whose memory falls on date d, in order. */
  function PositionsOf(dates: seq<string>, d: string, k: nat): seq<nat>
    requires k <= |dates|
  {
    if k == 0 then []
    else PositionsOf(dates, d, k - 1) + if dates[k - 1] == d then [k - 1] else []
  }

  function On(dates: seq<string>, d: string): nat -> bool { (i: nat) => i < |dates| && dates[i] == d }

  /** What was picked for one date, in the order it was picked. */
  function Picked(dates: seq<string>, out: seq<nat>, d: string): seq<nat> { Filter(out, On(dates, d)) }

  lemma {:induction false} PositionsAre(dates: seq<string>, d: string, k: nat)
    requires k <= |dates|
    ensures forall i: nat :: i in PositionsOf(dates, d, k) <==> i < k && dates[i] == d
    ensures NoRepeats(PositionsOf(dates, d, k))
  {
    if k > 0 {
      PositionsAre(dates, d, k - 1);
      var before := PositionsOf(dates, d, k - 1);
      forall j | 0 <= j < |before|
        ensures before[j] != k - 1
      {
        assert before[j] in before;
      }
    }
  }

  lemma PickOne(dates: seq<string>, out: seq<nat>, p: nat, d: string)
    requires p < |dates|
    ensures Picked(dates, out + [p], d) == Picked(dates, out, d) + if dates[p] == d then [p] else []
  {
    assert (out + [p])[..|out|] == out;
  }

  lemma NewPick(dates: seq<string>, out: seq<nat>, d: string, list: seq<nat>, k: nat)
    requires NoRepeats(list) && k < |list| && On(dates, d)(list[k]) && Picked(dates, out, d) == list[..k]
    ensures list[k] !in out
  {
    NotInPrefix(list, k);
    var pick := list[k];
    assert pick in out ==> pick in Filter(out, On(dates, d));
  }

  /** Every date has had its first items taken, round of them, or one more before position p. */
  ghost predicate Dealt(dates: seq<string>, order: seq<string>, out: seq<nat>, round: nat, p: nat) {
    forall j :: 0 <= j < |order| ==> DealtOne(dates, order[j], out, round + if j < p then 1 else 0)
  }

  ghost predicate DealtOne(dates: seq<string>, d: string, out: seq<nat>, k: nat) {
    var list := PositionsOf(dates, d, |dates|);
    Picked(dates, out, d) == list[..Min(k, |list|)]
  }

  ghost predicate Order(dates: seq<string>, order: seq<string>) {
    NoRepeats(order) && forall d :: d in order <==> d in dates
  }

  lemma DealNext(dates: seq<string>, order: seq<string>, out: seq<nat>, round: nat, p: nat)
    requires Order(dates, order) && Dealt(dates, order, out, round, p) && p < |order|
    ensures var list := PositionsOf(dates, order[p], |dates|);
      if round < |list| then list[round] !in out && list[round] < |dates|
                             && Dealt(dates, order, out + [list[round]], round, p + 1)
      else Dealt(dates, order, out, round, p + 1)
  {
    hide PositionsOf, Picked;
    var d := order[p];
    var list := PositionsOf(dates, d, |dates|);
    PositionsAre(dates, d, |dates|);
    assert DealtOne(dates, d, out, round);
    if round < |list| {
      var pick := list[round];
      assert pick in list;
      PickedIsFilter(dates, out, d);
      NewPick(dates, out, d, list, round);
      forall j | 0 <= j < |order|
        ensures DealtOne(dates, order[j], out + [pick], round + if j < p + 1 then 1 else 0)
      {
        assert DealtOne(dates, order[j], out, round + if j < p then 1 else 0);
        PickOne(dates, out, pick, order[j]);
        if j == p {
          assert list[..round] + [pick] == list[..round + 1];
        }
      }
    } else {
      forall j | 0 <= j < |order|
        ensures DealtOne(dates, order[j], out, round + if j < p + 1 then 1 else 0)
      {
        assert DealtOne(dates, order[j], out, round + if j < p then 1 else 0);
      }
    }
  }

  lemma PickedIsFilter(dates: seq<string>, out: seq<nat>, d: string)
    ensures Picked(dates, out, d) == Filter(out, On(dates, d))
  {
  }

  lemma DealRound(dates: seq<string>, order: seq<string>, out: seq<nat>, round: nat)
    requires Dealt(dates, order, out, round, |order|)
    ensures Dealt(dates, order, out, round + 1, 0)
  {
    hide DealtOne;
    forall j | 0 <= j < |order|
      ensures DealtOne(dates, order[j], out, round + 1 + if j < 0 then 1 else 0)
    {
      assert DealtOne(dates, order[j], out, round + if j < |order| then 1 else 0);
    }
  }

  lemma DealStart(dates: seq<string>, order: seq<string>)
    ensures Dealt(dates, order, [], 0, 0)
  {
  }

  /** Once every date is exhausted, every position has been picked. */
  lemma AllPicked(dates: seq<string>, order: seq<string>, out: seq<nat>, round: nat)
    requires Order(dates, order) && Dealt(dates, order, out, round, 0)
    requires forall j :: 0 <= j < |order| ==> |PositionsOf(dates, order[j], |dates|)| <= round
    ensures |out| >= |dates|
  {
    hide PositionsOf, Picked;
    forall i: nat | i < |dates|
      ensures i in out
    {
      assert dates[i] in order;
      var j :| 0 <= j < |order| && order[j] == dates[i];
      var list := PositionsOf(dates, order[j], |dates|);
      PositionsAre(dates, order[j], |dates|);
      assert DealtOne(dates, order[j], out, round + if j < 0 then 1 else 0);
      assert list[..|list|] == list;
      PickedIsFilter(dates, out, order[j]);
      assert i in Filter(out, On(dates, order[j]));
    }
    CoversRange(out, |dates|);
  }

  /** A list with every number below n in it has at least n entries. */
  lemma {:induction false} CoversRange(out: seq<nat>, n: nat)
    requires forall i: nat :: i < n ==> i in out
    ensures |out| >= n
    decreases n
  {
    if n > 0 {
      assert n - 1 in out;
      var k :| 0 <= k < |out| && out[k] == n - 1;
      var rest := out[..k] + out[k + 1..];
      forall i: nat | i < n - 1
        ensures i in rest
      {
        assert i in out;
        var j :| 0 <= j < |out| && out[j] == i;
        assert i == if j < k then rest[j] else rest[j - 1];
      }
      CoversRange(rest, n - 1);
    }
  }

  /** Groups positions by date, dates in first-seen order. */
  method GroupByDate(dates: seq<string>) returns (byDate: map<string, seq<nat>>, order: seq<string>)
    ensures Order(dates, order)
    ensures forall d :: d in order ==> d in byDate && byDate[d] == PositionsOf(dates, d, |dates|)
  {
    byDate, order := map[], [];
    for i := 0 to |dates|
      invariant Order(dates[..i], order)
      invariant forall d :: d in byDate <==> d in order
      invariant forall d :: d in byDate ==> byDate[d] == PositionsOf(dates, d, i)
    {
      var d := dates[i];
      assert dates[..i + 1] == dates[..i] + [d];
      if d !in byDate {
        PositionsAre(dates, d, i);
        assert PositionsOf(dates, d, i) == [] by { NoPositions(dates, d, i); }
        order := order + [d];
        byDate := byDate[d := []];
      }
      byDate := byDate[d := byDate[d] + [i]];
      forall e | e in byDate && e != d
        ensures PositionsOf(dates, e, i + 1) == PositionsOf(dates, e, i)
      {
        assert PositionsOf(dates, e, i) + [] == PositionsOf(dates, e, i);
      }
    }
    assert dates[..|dates|] == dates;
  }

  lemma {:induction false} NoPositions(dates: seq<string>, d: string, k: nat)
    requires k <= |dates| && d !in dates[..k]
    ensures PositionsOf(dates, d, k) == []
  {
    if k > 0 {
      assert dates[..k] == dates[..k - 1] + [dates[k - 1]];
      NoPositions(dates, d, k - 1);
    }
  }

  /** Up to n positions. With more memories than that: exactly n different ones, a prefix of each
      date's list, and no date more than one ahead of a date that still has some left. */
  method SpreadByDate(dates: seq<string>, n: int) returns (out: seq<nat>)
    ensures |dates| <= n ==> out == Positions(|dates|)
    ensures |dates| > n ==> |out| == if n < 0 then 0 else n
    ensures NoRepeats(out) && forall p :: p in out ==> p < |dates|
    ensures forall d :: Picked(dates, out, d) <= PositionsOf(dates, d, |dates|)
    ensures Fair(dates, out)
  {
    hide PositionsOf, Picked, Dealt, Fair, Order;
    if |dates| <= n {
      out := Positions(|dates|);
      forall d { Everything(dates, d); }
      EverythingFair(dates);
      return;
    }
    var byDate, order := GroupByDate(dates);
    out := [];
    var round := 0;
    DealStart(dates, order);
    ghost var p := 0;
    while |out| < n
      invariant |out| <= (if n < 0 then 0 else n)
      invariant NoRepeats(out) && forall q :: q in out ==> q < |dates|
      invariant 0 <= p <= |order| && Dealt(dates, order, out, round, p)
      invariant |out| < n ==> p == 0
      decreases n - |out|
    {
      var start := |out|;
      out, p := DealOnce(dates, n, byDate, order, out, round);
      if |out| >= n {
        break;
      }
      DealRound(dates, order, out, round);
      round, p := round + 1, 0;
      if |out| == start {
        Exhausted(dates, order, out, round);
        break;
      }
    }
    DealtIsFair(dates, order, out, round, p);
  }

  /** The inner loop: one more from each date that has one, until n are picked. */
  method DealOnce(dates: seq<string>, n: int, byDate: map<string, seq<nat>>, order: seq<string>,
                  picked: seq<nat>, round: nat) returns (out: seq<nat>, ghost p: nat)
    requires Order(dates, order) && |picked| < n
    requires forall d :: d in order ==> d in byDate && byDate[d] == PositionsOf(dates, d, |dates|)
    requires NoRepeats(picked) && forall q :: q in picked ==> q < |dates|
    requires Dealt(dates, order, picked, round, 0)
    ensures |picked| <= |out| <= n && NoRepeats(out) && forall q :: q in out ==> q < |dates|
    ensures p <= |order| && Dealt(dates, order, out, round, p) && (|out| < n ==> p == |order|)
    ensures |out| == |picked| ==>
      out == picked && forall j :: 0 <= j < |order| ==> |PositionsOf(dates, order[j], |dates|)| <= round
  {
    hide PositionsOf, Picked, Dealt, Order;
    out := picked;
    for j := 0 to |order|
      invariant |picked| <= |out| < n && (|out| == |picked| ==> out == picked)
      invariant NoRepeats(out) && forall q :: q in out ==> q < |dates|
      invariant Dealt(dates, order, out, round, j)
      invariant |out| == |picked| ==> forall k :: 0 <= k < j ==> |PositionsOf(dates, order[k], |dates|)| <= round
    {
      var d := order[j];
      assert d in order;
      DealNext(dates, order, out, round, j);
      if round < |byDate[d]| {
        out := out + [byDate[d][round]];
        if |out| >= n {
          p := j + 1;
          return;
        }
      }
    }
    p := |order|;
  }

  /** No date is more than one ahead of a date that still has some left. */
  ghost predicate Fair(dates: seq<string>, out: seq<nat>) {
    forall d, e ::
      |Picked(dates, out, d)| < |PositionsOf(dates, d, |dates|)| ==>
        |Picked(dates, out, e)| <= |Picked(dates, out, d)| + 1
  }

  lemma EverythingFair(dates: seq<string>)
    ensures Fair(dates, Positions(|dates|))
  {
    hide PositionsOf, Picked;
    forall d { Everything(dates, d); }
  }

  lemma Exhausted(dates: seq<string>, order: seq<string>, out: seq<nat>, round: nat)
    requires Order(dates, order) && Dealt(dates, order, out, round, 0) && round > 0
    requires forall j :: 0 <= j < |order| ==> |PositionsOf(dates, order[j], |dates|)| <= round - 1
    ensures |out| >= |dates|
  {
    AllPicked(dates, order, out, round);
  }

  lemma DealtIsFair(dates: seq<string>, order: seq<string>, out: seq<nat>, round: nat, p: nat)
    requires Order(dates, order) && Dealt(dates, order, out, round, p)
    ensures forall d :: Picked(dates, out, d) <= PositionsOf(dates, d, |dates|)
    ensures Fair(dates, out)
  {
    hide PositionsOf, Picked, Dealt;
    forall d
      ensures var list, picked := PositionsOf(dates, d, |dates|), Picked(dates, out, d);
        picked <= list && |picked| <= round + 1 && (|picked| < |list| ==> |picked| >= round)
    {
      DealtDate(dates, order, out, round, p, d);
    }
  }

  lemma DealtDate(dates: seq<string>, order: seq<string>, out: seq<nat>, round: nat, p: nat, d: string)
    requires Order(dates, order) && Dealt(dates, order, out, round, p)
    ensures var list, picked := PositionsOf(dates, d, |dates|), Picked(dates, out, d);
      picked <= list && |picked| <= round + 1 && (|picked| < |list| ==> |picked| >= round)
  {
    if d in order {
      var j :| 0 <= j < |order| && order[j] == d;
      assert DealtOne(dates, order[j], out, round + if j < p then 1 else 0);
    } else {
      assert dates[..|dates|] == dates;
      NoPositions(dates, d, |dates|);
      NothingOn(dates, out, d);
    }
  }

  lemma NothingOn(dates: seq<string>, out: seq<nat>, d: string)
    requires d !in dates
    ensures Picked(dates, out, d) == []
  {
    FilterNone<nat>(out, On(dates, d));
  }

  function Positions(n: nat): seq<nat> { seq(n, (i: nat) => i) }

  lemma Everything(dates: seq<string>, d: string)
    ensures Picked(dates, Positions(|dates|), d) == PositionsOf(dates, d, |dates|)
  {
    EverythingUpTo(dates, d, |dates|);
    assert Positions(|dates|)[..|dates|] == Positions(|dates|);
  }

  lemma {:induction false} EverythingUpTo(dates: seq<string>, d: string, k: nat)
    requires k <= |dates|
    ensures Filter<nat>(Positions(|dates|)[..k], On(dates, d)) == PositionsOf(dates, d, k)
  {
    if k > 0 {
      EverythingUpTo(dates, d, k - 1);
      FilterStep<nat>(Positions(|dates|), k - 1, On(dates, d));
    }
  }
}
