/** The backlog of the entity extraction, and what one round of model replies leaves of it. */
module Backlog {
  import opened Lists
  import opened Consumers
  import opened Tables

  /** One element of the model's JSON array: a 1-based index into the batch, and names. */
  datatype Finding = Finding(memory: int, names: seq<string>)

  /** Whatever the model answers: an error, something that does not parse, or findings. */
  datatype Reply = Failed | Garbled | Parsed(findings: seq<Finding>)

  const BATCH_SIZE := 5
  const PER_TICK := 100

  predicate IsPending(r: Row) { !IsConsumed(r.mask, EntityExtract) && IsFact(r.phase) }

  function OldestFirst(r: Row): real { -(r.createdAt as real) }

  function Cap(limit: int): nat { if limit <= 0 then PER_TICK else limit }

  function AllPending(rows: seq<Row>): seq<Row> { StableSort(Filter(rows, IsPending), OldestFirst) }

  /** ListUnconsumedInPhase over organized and processed memories, oldest first. */
  function Pending(rows: seq<Row>, limit: int): seq<Row> {
    var all := AllPending(rows);
    if |all| <= Cap(limit) then all else all[..Cap(limit)]
  }

  /** The positions of the unconsumed organized or processed memories. */
  function Waiting(rows: seq<Row>): set<nat> {
    set i: nat | i < |rows| && IsPending(rows[i])
  }

  lemma AllPendingAre(rows: seq<Row>)
    ensures forall r :: r in AllPending(rows) <==> r in rows && IsPending(r)
  {
  }

  lemma PendingListed(rows: seq<Row>, limit: int)
    ensures forall r :: r in Pending(rows, limit) ==> r in rows && IsPending(r)
  {
    hide IsPending;
    AllPendingAre(rows);
  }

  /** The list is empty exactly when nothing waits, whatever the limit. */
  lemma NothingPending(rows: seq<Row>, limit: int)
    ensures Pending(rows, limit) == [] <==> Waiting(rows) == {}
  {
    hide IsPending;
    AllPendingAre(rows);
    var all := AllPending(rows);
    if all != [] {
      assert all[0] in all;
      var i: nat :| i < |rows| && rows[i] == all[0];
      assert i in Waiting(rows);
    } else {
      forall i: nat | i < |rows|
        ensures !IsPending(rows[i])
      {
        assert rows[i] in rows;
      }
    }
  }

  // ---- what a reply settles ----

  predicate InBatch(f: Finding, batch: seq<Row>) { 1 <= f.memory <= |batch| }

  /** The memories a reply settles: those it reports on, or the whole batch if it is unreadable. */
  function Settled(batch: seq<Row>, reply: Reply): seq<Row> {
    match reply
    case Failed => []
    case Garbled => batch
    case Parsed(findings) => Reported(batch, findings)
  }

  /** Findings about a memory outside the batch are dropped. */
  function Reported(batch: seq<Row>, findings: seq<Finding>): seq<Row> {
    if findings == [] then []
    else
      var before, f := Reported(batch, findings[..|findings| - 1]), findings[|findings| - 1];
      if InBatch(f, batch) then before + [batch[f.memory - 1]] else before
  }

  lemma {:induction false} ReportedAre(batch: seq<Row>, findings: seq<Finding>, r: Row)
    ensures r in Reported(batch, findings)
       <==> exists f :: f in findings && InBatch(f, batch) && batch[f.memory - 1] == r
  {
    if findings != [] {
      ReportedAre(batch, findings[..|findings| - 1], r);
      assert findings == findings[..|findings| - 1] + [findings[|findings| - 1]];
    }
  }

  lemma SettledInBatch(batch: seq<Row>, reply: Reply)
    ensures forall r :: r in Settled(batch, reply) ==> r in batch
  {
    if reply.Parsed? {
      forall r | r in Reported(batch, reply.findings)
        ensures r in batch
      {
        ReportedAre(batch, reply.findings, r);
      }
    }
  }

  /** The reply is unreadable, or reports on every index of the batch. */
  ghost predicate Whole(batch: seq<Row>, reply: Reply) {
    reply.Garbled? || (reply.Parsed? && forall i :: 1 <= i <= |batch| ==> ReportsOn(reply.findings, i))
  }

  ghost predicate ReportsOn(findings: seq<Finding>, i: int) { exists f :: f in findings && f.memory == i }

  /** A reply settles its whole batch exactly when it is unreadable or reports on every index. */
  lemma SettlesWholeIff(batch: seq<Row>, reply: Reply)
    requires batch != [] && NoRepeats(batch)
    ensures (forall r :: r in batch ==> r in Settled(batch, reply)) <==> Whole(batch, reply)
  {
    if reply.Parsed? {
      forall r { ReportedAre(batch, reply.findings, r); }
      if forall r :: r in batch ==> r in Settled(batch, reply) {
        forall i | 1 <= i <= |batch|
          ensures ReportsOn(reply.findings, i)
        {
          assert batch[i - 1] in batch && batch[i - 1] in Settled(batch, reply);
          var f :| f in reply.findings && InBatch(f, batch) && batch[f.memory - 1] == batch[i - 1];
          assert f.memory == i;
        }
      }
      if Whole(batch, reply) {
        forall r | r in batch
          ensures r in Settled(batch, reply)
        {
          var j :| 0 <= j < |batch| && batch[j] == r;
          assert ReportsOn(reply.findings, j + 1);
          var f :| f in reply.findings && f.memory == j + 1;
          assert InBatch(f, batch);
        }
      }
    } else {
      assert batch[0] in batch;
    }
  }

  // ---- marking ----

  function Consume(r: Row): Row { r.(mask := Marked(r.mask, EntityExtract)) }

  function MarkEach(rows: seq<Row>, settled: seq<Row>): seq<Row> {
    if settled == [] then rows
    else MarkRows(MarkEach(rows, settled[..|settled| - 1]), settled[|settled| - 1].id, EntityExtract)
  }

  lemma MarkedTwice(mask: bv64, c: Consumer)
    ensures Marked(Marked(mask, c), c) == Marked(mask, c)
  {
    OrShuffle(mask, Bit(c), Bit(c));
    OrZero(Bit(c));
  }

  lemma ConsumeTwice(r: Row)
    ensures Consume(Consume(r)) == Consume(r) && !IsPending(Consume(r))
  {
    hide Marked;
    MarkedOne(r.mask, EntityExtract, EntityExtract);
    MarkedTwice(r.mask, EntityExtract);
  }

  ghost predicate NamesRow(settled: seq<Row>, id: Id) { exists r :: r in settled && r.id == id }

  /** The rows whose ids were settled are marked, and no other row changes. */
  lemma {:induction false} MarkEachAt(rows: seq<Row>, settled: seq<Row>)
    ensures |MarkEach(rows, settled)| == |rows|
    ensures forall i :: 0 <= i < |rows| ==>
      MarkEach(rows, settled)[i] == if NamesRow(settled, rows[i].id) then Consume(rows[i]) else rows[i]
  {
    hide Marked;
    if settled != [] {
      var before, last := settled[..|settled| - 1], settled[|settled| - 1];
      assert settled == before + [last];
      MarkEachAt(rows, before);
      forall i | 0 <= i < |rows|
        ensures MarkEach(rows, settled)[i] == if NamesRow(settled, rows[i].id) then Consume(rows[i]) else rows[i]
      {
        ConsumeTwice(rows[i]);
        assert NamesRow(settled, rows[i].id) <==> NamesRow(before, rows[i].id) || last.id == rows[i].id by {
          assert last in settled;
        }
      }
    }
  }

  lemma {:induction false} MarkEachConcat(rows: seq<Row>, a: seq<Row>, b: seq<Row>)
    ensures MarkEach(rows, a + b) == MarkEach(MarkEach(rows, a), b)
    decreases |b|
  {
    hide MarkRows;
    if b == [] {
      assert a + b == a;
    } else {
      assert (a + b)[..|a + b| - 1] == a + b[..|b| - 1];
      MarkEachConcat(rows, a, b[..|b| - 1]);
    }
  }

  /** What waits after marking: exactly what waited before and was not settled. */
  lemma WaitingAfter(rows: seq<Row>, settled: seq<Row>)
    ensures Waiting(MarkEach(rows, settled)) == set i | i in Waiting(rows) && !NamesRow(settled, rows[i].id)
  {
    hide IsPending;
    MarkEachAt(rows, settled);
    forall i | 0 <= i < |rows|
      ensures !IsPending(Consume(rows[i]))
    {
      ConsumeTwice(rows[i]);
    }
  }

  // ---- one round ----

  function BatchAt(pending: seq<Row>, k: nat): seq<Row> {
    pending[Min(BATCH_SIZE * k, |pending|)..Min(BATCH_SIZE * (k + 1), |pending|)]
  }

  /** Everything the replies of a round settle, batch by batch. */
  function AllSettled(pending: seq<Row>, replies: seq<Reply>): seq<Row> {
    if replies == [] then []
    else
      var n := |replies| - 1;
      AllSettled(pending, replies[..n]) + Settled(BatchAt(pending, n), replies[n])
  }

  /** One reply per batch. */
  predicate Answered(pending: seq<Row>, replies: seq<Reply>) {
    |pending| <= BATCH_SIZE * |replies| && (replies == [] || BATCH_SIZE * (|replies| - 1) < |pending|)
  }

  ghost predicate SettledBy(pending: seq<Row>, replies: seq<Reply>, k: nat, r: Row) {
    k < |replies| && r in Settled(BatchAt(pending, k), replies[k])
  }

  lemma {:induction false} AllSettledAre(pending: seq<Row>, replies: seq<Reply>, r: Row)
    ensures r in AllSettled(pending, replies) <==> exists k: nat :: SettledBy(pending, replies, k, r)
  {
    hide Settled;
    if replies != [] {
      var n := |replies| - 1;
      var before := replies[..n];
      AllSettledAre(pending, before, r);
      if r in AllSettled(pending, before) {
        var k: nat :| SettledBy(pending, before, k, r);
        assert SettledBy(pending, replies, k, r);
      }
      if r in Settled(BatchAt(pending, n), replies[n]) {
        assert SettledBy(pending, replies, n, r);
      }
      if k: nat :| SettledBy(pending, replies, k, r) {
        assert k < n ==> SettledBy(pending, before, k, r);
      }
    }
  }

  lemma AllSettledPending(pending: seq<Row>, replies: seq<Reply>)
    ensures forall r :: r in AllSettled(pending, replies) ==> r in pending
  {
    forall r | r in AllSettled(pending, replies)
      ensures r in pending
    {
      AllSettledAre(pending, replies, r);
      var k: nat :| SettledBy(pending, replies, k, r);
      SettledInBatch(BatchAt(pending, k), replies[k]);
    }
  }

  /** The round lists everything that waits, and every reply settles its whole batch. */
  ghost predicate Clears(rows: seq<Row>, limit: int, replies: seq<Reply>) {
    |AllPending(rows)| <= Cap(limit)
    && forall k :: 0 <= k < |replies| ==> Whole(BatchAt(Pending(rows, limit), k), replies[k])
  }

  lemma BatchOf(pending: seq<Row>, replies: seq<Reply>, j: nat) returns (k: nat)
    requires Answered(pending, replies) && j < |pending| && NoRepeats(pending)
    ensures k < |replies| && pending[j] in BatchAt(pending, k)
    ensures forall m: nat :: m != k ==> pending[j] !in BatchAt(pending, m)
  {
    k := j / BATCH_SIZE;
    assert BatchAt(pending, k)[j - BATCH_SIZE * k] == pending[j];
    forall m: nat | m != k
      ensures pending[j] !in BatchAt(pending, m)
    {
      var lo, batch := Min(BATCH_SIZE * m, |pending|), BatchAt(pending, m);
      forall i | 0 <= i < |batch|
        ensures batch[i] != pending[j]
      {
        assert batch[i] == pending[lo + i] && lo + i != j;
      }
    }
  }

  lemma BatchPart(pending: seq<Row>, replies: seq<Reply>, k: nat)
    requires Answered(pending, replies) && k < |replies| && NoRepeats(pending)
    ensures BatchAt(pending, k) != [] && NoRepeats(BatchAt(pending, k))
    ensures forall r :: r in BatchAt(pending, k) ==> r in pending
  {
  }

  lemma RowsNoRepeats(rows: seq<Row>)
    requires DistinctIds(rows)
    ensures NoRepeats(rows) && NoRepeats(AllPending(rows))
  {
    FilterNoRepeats(rows, IsPending);
    SortNoRepeats(Filter(rows, IsPending), OldestFirst);
  }

  /** All listed rows are settled exactly when every reply settles its whole batch. */
  lemma AllBatchesIff(pending: seq<Row>, replies: seq<Reply>)
    requires Answered(pending, replies) && NoRepeats(pending)
    ensures (forall r :: r in pending ==> r in AllSettled(pending, replies))
       <==> forall k :: 0 <= k < |replies| ==> Whole(BatchAt(pending, k), replies[k])
  {
    hide Settled, Whole, BatchAt, AllSettled;
    forall r { AllSettledAre(pending, replies, r); }
    if forall r :: r in pending ==> r in AllSettled(pending, replies) {
      forall k | 0 <= k < |replies|
        ensures Whole(BatchAt(pending, k), replies[k])
      {
        BatchPart(pending, replies, k);
        forall r | r in BatchAt(pending, k)
          ensures r in Settled(BatchAt(pending, k), replies[k])
        {
          OwnBatch(pending, replies, k, r);
        }
        SettlesWholeIff(BatchAt(pending, k), replies[k]);
      }
    }
    if forall k :: 0 <= k < |replies| ==> Whole(BatchAt(pending, k), replies[k]) {
      forall r | r in pending
        ensures r in AllSettled(pending, replies)
      {
        var j :| 0 <= j < |pending| && pending[j] == r;
        var k := BatchOf(pending, replies, j);
        BatchPart(pending, replies, k);
        SettlesWholeIff(BatchAt(pending, k), replies[k]);
        assert SettledBy(pending, replies, k, r);
      }
    }
  }

  /** A row can only be settled by its own batch. */
  lemma OwnBatch(pending: seq<Row>, replies: seq<Reply>, k: nat, r: Row)
    requires Answered(pending, replies) && NoRepeats(pending) && k < |replies|
    requires r in BatchAt(pending, k) && r in AllSettled(pending, replies)
    ensures r in Settled(BatchAt(pending, k), replies[k])
  {
    hide Settled, BatchAt, AllSettled;
    AllSettledAre(pending, replies, r);
    BatchPart(pending, replies, k);
    var m: nat :| SettledBy(pending, replies, m, r);
    SettledInBatch(BatchAt(pending, m), replies[m]);
    var j :| 0 <= j < |pending| && pending[j] == r;
    var own := BatchOf(pending, replies, j);
  }

  /** A round empties the backlog exactly when it lists everything that waits and every reply
      settles its whole batch. */
  lemma RoundClearsIff(rows: seq<Row>, limit: int, replies: seq<Reply>)
    requires DistinctIds(rows) && Answered(Pending(rows, limit), replies)
    ensures Waiting(MarkEach(rows, AllSettled(Pending(rows, limit), replies))) == {} <==> Clears(rows, limit, replies)
  {
    hide IsPending, AllPending, Waiting, AllSettled, Settled, Whole, MarkEach, BatchAt, Answered;
    var all, pending := AllPending(rows), Pending(rows, limit);
    var settled := AllSettled(pending, replies);
    RowsNoRepeats(rows);
    AllPendingAre(rows);
    AllSettledPending(pending, replies);
    PrefixNoRepeats(all, |pending|);
    assert pending == all[..|pending|];
    AllBatchesIff(pending, replies);
    EmptiedIff(rows, settled);
    if |all| > Cap(limit) {
      NotInPrefix(all, Cap(limit));
      assert all[Cap(limit)] in all;
    }
  }

  lemma PrefixNoRepeats(s: seq<Row>, n: nat)
    requires NoRepeats(s) && n <= |s|
    ensures NoRepeats(s[..n])
  {
  }

  lemma EmptiedIff(rows: seq<Row>, settled: seq<Row>)
    requires DistinctIds(rows) && forall r :: r in settled ==> r in rows
    ensures Waiting(MarkEach(rows, settled)) == {} <==> forall r :: r in rows && IsPending(r) ==> r in settled
  {
    hide IsPending, MarkEach;
    WaitingAfter(rows, settled);
    forall i | 0 <= i < |rows|
      ensures NamesRow(settled, rows[i].id) <==> rows[i] in settled
    {
      if NamesRow(settled, rows[i].id) {
        var r :| r in settled && r.id == rows[i].id;
        var j :| 0 <= j < |rows| && rows[j] == r;
        assert i == j;
      }
    }
    if forall r :: r in rows && IsPending(r) ==> r in settled {
      forall i: nat | i in Waiting(rows)
        ensures NamesRow(settled, rows[i].id)
      {
        assert rows[i] in rows;
      }
    }
    if Waiting(MarkEach(rows, settled)) == {} {
      forall r | r in rows && IsPending(r)
        ensures r in settled
      {
        var i: nat :| i < |rows| && rows[i] == r;
        assert i in Waiting(rows);
        assert i !in Waiting(MarkEach(rows, settled));
      }
    }
  }

  /** Settling any listed row makes the backlog strictly smaller. */
  lemma SettledShrinks(rows: seq<Row>, limit: int, replies: seq<Reply>)
    ensures var settled := AllSettled(Pending(rows, limit), replies);
      && Waiting(MarkEach(rows, settled)) <= Waiting(rows)
      && (settled != [] ==> Waiting(MarkEach(rows, settled)) < Waiting(rows))
  {
    hide IsPending, MarkEach, AllSettled, Pending;
    var settled := AllSettled(Pending(rows, limit), replies);
    WaitingAfter(rows, settled);
    if settled != [] {
      AllSettledPending(Pending(rows, limit), replies);
      PendingListed(rows, limit);
      assert settled[0] in settled;
      var i: nat :| i < |rows| && rows[i] == settled[0];
      assert i in Waiting(rows) && NamesRow(settled, rows[i].id);
    }
  }

  // ---- a round that records nothing need not be the last ----

  /** Readable replies that report nothing, and failed calls, leave the backlog as it was. */
  lemma {:induction false} SilentRound(rows: seq<Row>, pending: seq<Row>, replies: seq<Reply>)
    requires forall k :: 0 <= k < |replies| ==> replies[k] in {Parsed([]), Failed}
    ensures AllSettled(pending, replies) == [] && MarkEach(rows, AllSettled(pending, replies)) == rows
  {
    if replies != [] {
      SilentRound(rows, pending, replies[..|replies| - 1]);
      assert replies[|replies| - 1] == Parsed([]) || replies[|replies| - 1] == Failed;
    }
  }

  // ---- what is listed, and in which batches ----

  /** A processed or organized row whose bit for this stage is not set. */
  ghost predicate Unextracted(r: Row) { (r.phase == Processed || r.phase == Organized) && r.mask & 16 == 0 }

  /** r is listed before s: it is older, or equally old and earlier in the table. */
  ghost predicate OlderThan(rows: seq<Row>, r: Row, s: Row) {
    r.createdAt < s.createdAt || (r.createdAt == s.createdAt && Precedes(rows, r, s))
  }

  /** Without a limit a hundred rows are listed. */
  function LimitOf(limit: int): nat { if limit <= 0 then 100 else limit }

  lemma PendingIs(r: Row)
    ensures IsPending(r) <==> Unextracted(r)
  {
  }

  /** The backlog is listed oldest first and cut at the limit: as many rows as the limit allows, and
      none is listed unless every older one is. */
  lemma PendingOrder(rows: seq<Row>, limit: int, r: Row, s: Row)
    requires NoRepeats(rows)
    ensures var listed := Pending(rows, limit);
      && |listed| == Min(LimitOf(limit), |PositionsWhere(rows, IsPending)|)
      && (r in listed ==> r in rows && Unextracted(r))
      && (r in listed && s in listed ==> (Precedes(listed, r, s) <==> OlderThan(rows, r, s)))
      && (s in listed && r in rows && Unextracted(r) && OlderThan(rows, r, s) ==> r in listed)
  {
    hide IsPending, Unextracted, PositionsWhere, Filter, StableSort;
    var all, listed := AllPending(rows), Pending(rows, limit);
    PendingIs(r);
    FilterPositions(rows, IsPending);
    FilterNoRepeats(rows, IsPending);
    SortNoRepeats(Filter(rows, IsPending), OldestFirst);
    StableOrder(Filter(rows, IsPending), OldestFirst, r, s);
    FilterOrder(rows, IsPending, r, s);
    PendingIs(s);
    PrefixOrder(all, |listed|, r, s);
    assert listed == all[..|listed|];
  }

  /** A prefix keeps the order and holds whatever comes before one of its elements. */
  lemma PrefixOrder(s: seq<Row>, n: nat, a: Row, b: Row)
    requires NoRepeats(s) && n <= |s|
    ensures a in s[..n] && b in s[..n] ==> (Precedes(s[..n], a, b) <==> Precedes(s, a, b))
    ensures b in s[..n] && Precedes(s, a, b) ==> a in s[..n]
  {
    if b in s[..n] && Precedes(s, a, b) {
      var i, j :| 0 <= i < j < |s| && s[i] == a && s[j] == b;
      assert j < n;
      assert s[..n][i] == a && s[..n][j] == b;
    }
    if Precedes(s[..n], a, b) {
      var i, j :| 0 <= i < j < n && s[..n][i] == a && s[..n][j] == b;
      assert s[i] == a && s[j] == b;
    }
  }

  /** The batches are the list cut into fives: batch k holds rows 5k up to 5k + 4, as far as there are. */
  lemma BatchesOfFive(pending: seq<Row>, k: nat, i: nat)
    ensures |BatchAt(pending, k)| == if 5 * k >= |pending| then 0 else Min(5, |pending| - 5 * k)
    ensures i < |BatchAt(pending, k)| ==> BatchAt(pending, k)[i] == pending[5 * k + i]
  {
  }
}
