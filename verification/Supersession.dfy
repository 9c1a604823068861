/** Superseding: which row replaced which, and why following the marks always ends. */
module Supersession {
  import opened Tables
  import opened Runs
  import opened WriteLaws

  /** The row names the newer row that replaced it. */
  predicate HasEdge(r: Row) {
    r.metadata.supersededBy.Some? && r.metadata.supersededBy.value.Str? && r.metadata.supersededBy.value.s != ""
  }

  function EdgeOf(r: Row): string
    requires HasEdge(r)
  {
    r.metadata.supersededBy.value.s
  }

  /** Row i is superseded by row j. */
  ghost predicate Edge(rows: seq<Row>, i: nat, j: nat) {
    i < |rows| && j < |rows| && HasEdge(rows[i]) && EdgeOf(rows[i]) == rows[j].id
  }

  ghost predicate EdgeForward(rows: seq<Row>, i: nat) {
    exists j :: i < j < |rows| && Edge(rows, i, j)
  }

  /** Every edge goes from an earlier-inserted row to a later-inserted one. */
  ghost predicate Forward(rows: seq<Row>) {
    forall i :: 0 <= i < |rows| && HasEdge(rows[i]) ==> EdgeForward(rows, i)
  }

  /** Every row the marks touch was inserted before the row at p. */
  ghost predicate AllBefore(rows: seq<Row>, ids: set<Id>, p: nat) {
    forall i :: 0 <= i < |rows| && rows[i].id in ids ==> i < p
  }

  lemma MarkedRow(rows: seq<Row>, ids: set<Id>, newId: Id, i: nat)
    requires i < |rows|
    ensures var after := SupersedeRows(rows, ids, newId);
      && after[i].id == rows[i].id
      && (rows[i].id in ids ==> HasEdge(after[i]) && EdgeOf(after[i]) == newId)
      && (rows[i].id !in ids ==> after[i] == rows[i])
  {
  }

  /** Marking rows as replaced by the row at p keeps all edges forward exactly when every marked
      row was inserted before it. */
  lemma MarkForwardIff(rows: seq<Row>, ids: set<Id>, p: nat)
    requires DistinctIds(rows) && Forward(rows) && p < |rows|
    ensures Forward(SupersedeRows(rows, ids, rows[p].id)) <==> AllBefore(rows, ids, p)
  {
    var after := SupersedeRows(rows, ids, rows[p].id);
    forall i | 0 <= i < |rows|
      ensures HasEdge(after[i]) ==> (EdgeForward(after, i) <==> (rows[i].id in ids ==> i < p))
    {
      MarkedRow(rows, ids, rows[p].id, i);
      MarkedRow(rows, ids, rows[p].id, p);
      if rows[i].id in ids {
        if i < p {
          assert Edge(after, i, p);
        }
        if EdgeForward(after, i) {
          var j :| i < j < |after| && Edge(after, i, j);
          MarkedRow(rows, ids, rows[p].id, j);
          assert j == p;
        }
      } else if HasEdge(rows[i]) {
        assert EdgeForward(rows, i);
        var j :| i < j < |rows| && Edge(rows, i, j);
        MarkedRow(rows, ids, rows[p].id, j);
        assert Edge(after, i, j);
      }
    }
    forall i | 0 <= i < |rows|
      ensures rows[i].id in ids ==> HasEdge(after[i])
    {
      MarkedRow(rows, ids, rows[p].id, i);
    }
  }

  /** Updates that keep ids and edges keep their direction. */
  lemma SameEdges(rows: seq<Row>, after: seq<Row>)
    requires Forward(rows) && |after| == |rows|
    requires forall i :: 0 <= i < |rows| ==> after[i].id == rows[i].id && after[i].metadata == rows[i].metadata
    ensures Forward(after)
  {
    forall i | 0 <= i < |after| && HasEdge(after[i])
      ensures EdgeForward(after, i)
    {
      assert HasEdge(rows[i]) && EdgeForward(rows, i);
      var j :| i < j < |rows| && Edge(rows, i, j);
      assert Edge(after, i, j);
    }
  }

  lemma AppendForward(rows: seq<Row>, row: Row)
    requires Forward(rows) && !HasEdge(row)
    ensures Forward(rows + [row])
  {
    var after := rows + [row];
    forall i | 0 <= i < |after| && HasEdge(after[i])
      ensures EdgeForward(after, i)
    {
      assert EdgeForward(rows, i);
      var j :| i < j < |rows| && Edge(rows, i, j);
      assert Edge(after, i, j);
    }
  }

  /** A write that brings no supersede mark of its own and, if it is a fact, new content. */
  ghost predicate NewFact(db: Db, c: Command) {
    c.DoIngest? && Gate(c.req, c.env).Ok? ==>
      var m := Gate(c.req, c.env).value;
      m.metadata.supersededBy.None? && (IsFact(m.phase) ==> FindByHash(db.rows, m.hash).None?)
  }

  lemma OvertakenNotSelf(x: Extractors, rows: seq<Row>, m: Memory, id: Id)
    ensures id !in Overtaken(x, rows, m, id)
  {
  }

  /** The transaction either appends one row or leaves every row's id and marks alone. */
  lemma InsertedRows(x: Extractors, db: Db, m: Memory, now: int)
    requires Inserted(x, db, m, now).Some?
    ensures var (db', id) := Inserted(x, db, m, now).value;
      if FindByHash(db.rows, m.hash).None? then
        db'.rows == db.rows + [RowOf(x, m)] && id == m.id && !HasId(db.rows, id)
      else
        |db'.rows| == |db.rows| && forall i :: 0 <= i < |db.rows| ==>
          db'.rows[i].id == db.rows[i].id && db'.rows[i].metadata == db.rows[i].metadata
  {
  }

  lemma NewRowForward(x: Extractors, rows: seq<Row>, m: Memory)
    requires DistinctIds(rows) && Forward(rows) && m.metadata.supersededBy.None? && !HasId(rows, m.id)
    ensures var after := rows + [RowOf(x, m)]; Forward(SupersedeRows(after, Overtaken(x, after, m, m.id), m.id))
  {
    hide Overtaken;
    var after, p := rows + [RowOf(x, m)], |rows|;
    AppendForward(rows, RowOf(x, m));
    OvertakenNotSelf(x, after, m, m.id);
    assert after[p].id == m.id;
    MarkForwardIff(after, Overtaken(x, after, m, m.id), p);
  }

  lemma StoreForward(x: Extractors, db: Db, m: Memory, now: int)
    requires Consistent(db) && Forward(db.rows) && m.metadata.supersededBy.None?
    requires IsFact(m.phase) ==> FindByHash(db.rows, m.hash).None?
    ensures Forward(Stored(x, db, m, now).0.rows)
  {
    hide Inserted, RowOf, Forward;
    var inserted := Inserted(x, db, m, now);
    if inserted.Some? {
      var (db', id) := inserted.value;
      InsertedRows(x, db, m, now);
      if FindByHash(db.rows, m.hash).None? {
        NewRowForward(x, db.rows, m);
      } else {
        SameEdges(db.rows, db'.rows);
        assert SupersedeRows(db'.rows, {}, id) == db'.rows;
      }
    }
  }

  ghost predicate NoEdges(rows: seq<Row>) {
    forall i :: 0 <= i < |rows| ==> !HasEdge(rows[i])
  }

  lemma {:induction false} ReplayNoEdges(x: Extractors, db: Db, log: seq<Event>, envs: seq<Env>)
    requires NoEdges(db.rows) && |log| == |envs|
    ensures NoEdges(Replayed(x, db, log, envs).0.rows)
  {
    if log != [] {
      var n := |log| - 1;
      ReplayNoEdges(x, db, log[..n], envs[..n]);
      var before := Replayed(x, db, log[..n], envs[..n]).0;
      var req := ReplayRequest(log[n]);
      if Gate(req, envs[n]).Ok? {
        InboxNoEdges(x, before, Gate(req, envs[n]).value, envs[n].now);
      }
    }
  }

  lemma InboxNoEdges(x: Extractors, db: Db, m: Memory, now: int)
    requires NoEdges(db.rows) && m.metadata == NO_METADATA && !IsFact(m.phase)
    ensures NoEdges(Stored(x, db, m, now).0.rows)
  {
  }

  lemma StepForward(x: Extractors, db: Db, c: Command)
    requires Consistent(db) && Forward(db.rows) && NewFact(db, c) && !c.DoDelete?
    ensures Forward(Step(x, db, c).rows)
  {
    hide Forward, Consistent;
    match c
    case DoIngest(req, env) =>
      if Gate(req, env).Ok? {
        StoreForward(x, db, Gate(req, env).value, env.now);
      }
    case DoMark(id, consumer) => SameEdges(db.rows, MarkRows(db.rows, id, consumer));
    case DoReplay(envs) =>
      if db.events != [] {
        var es := Envs(envs, |db.events|);
        ReplayNoEdges(x, Wiped(db), db.events, es);
        NoEdgesForward(Replayed(x, Wiped(db), db.events, es).0.rows);
      }
    case _ =>
  }

  lemma NoEdgesForward(rows: seq<Row>)
    requires NoEdges(rows)
    ensures Forward(rows)
  {
  }

  /** Every fact the run writes has content no live row holds at that moment. */
  ghost predicate NewFacts(x: Extractors, cmds: seq<Command>) {
    cmds != [] ==>
      NewFacts(x, cmds[..|cmds| - 1]) && NewFact(Run(x, EMPTY_DB, cmds[..|cmds| - 1]), cmds[|cmds| - 1])
  }

  /** Supersession is acyclic: over every run of such writes without deletes, every edge goes
      from an earlier-inserted row to a later-inserted one. */
  lemma {:induction false} SupersessionForward(x: Extractors, cmds: seq<Command>)
    requires NewFacts(x, cmds) && forall c :: c in cmds ==> !c.DoDelete?
    ensures Forward(Run(x, EMPTY_DB, cmds).rows)
  {
    hide Step, NewFact;
    if cmds != [] {
      SupersessionForward(x, cmds[..|cmds| - 1]);
      ReachableKeeps(x, cmds[..|cmds| - 1]);
      StepForward(x, Run(x, EMPTY_DB, cmds[..|cmds| - 1]), cmds[|cmds| - 1]);
    }
  }

  // ---- with deletes ----

  /** Every edge whose target is live goes from an earlier-inserted row to a later-inserted one;
      a delete may leave edges without a target. */
  ghost predicate LiveForward(rows: seq<Row>) {
    forall i: nat, j: nat :: Edge(rows, i, j) ==> i < j
  }

  lemma ForwardIsLive(rows: seq<Row>)
    requires DistinctIds(rows) && Forward(rows)
    ensures LiveForward(rows)
  {
    forall i: nat, j: nat | Edge(rows, i, j)
      ensures i < j
    {
      assert EdgeForward(rows, i);
      var k :| i < k < |rows| && Edge(rows, i, k);
      assert k == j;
    }
  }

  lemma SameLiveEdges(rows: seq<Row>, after: seq<Row>)
    requires LiveForward(rows) && |after| == |rows|
    requires forall i :: 0 <= i < |rows| ==> after[i].id == rows[i].id && after[i].metadata == rows[i].metadata
    ensures LiveForward(after)
  {
    forall i: nat, j: nat | Edge(after, i, j)
      ensures i < j
    {
      assert Edge(rows, i, j);
    }
  }

  /** A new row without a mark, and marks that name it, only add forward edges. */
  lemma NewRowLiveForward(x: Extractors, rows: seq<Row>, m: Memory)
    requires LiveForward(rows) && DistinctIds(rows) && m.metadata.supersededBy.None? && !HasId(rows, m.id)
    ensures var after := rows + [RowOf(x, m)]; LiveForward(SupersedeRows(after, Overtaken(x, after, m, m.id), m.id))
  {
    hide Overtaken, RowOf;
    var after, row := rows + [RowOf(x, m)], RowOf(x, m);
    assert row.id == m.id && row.metadata == m.metadata by { NewRowMarks(x, m); }
    var ids := Overtaken(x, after, m, m.id);
    OvertakenNotSelf(x, after, m, m.id);
    var marked := SupersedeRows(after, ids, m.id);
    forall i: nat, j: nat | Edge(marked, i, j)
      ensures i < j
    {
      MarkedRow(after, ids, m.id, i);
      MarkedRow(after, ids, m.id, j);
      if after[i].id in ids {
        assert j == |rows|;
      } else if j < |rows| {
        assert Edge(rows, i, j);
      }
    }
  }

  lemma NewRowMarks(x: Extractors, m: Memory)
    ensures RowOf(x, m).id == m.id && RowOf(x, m).metadata == m.metadata
  {
  }

  lemma StoreLiveForward(x: Extractors, db: Db, m: Memory, now: int)
    requires Consistent(db) && LiveForward(db.rows) && m.metadata.supersededBy.None?
    requires IsFact(m.phase) ==> FindByHash(db.rows, m.hash).None?
    ensures LiveForward(Stored(x, db, m, now).0.rows)
  {
    hide Inserted, RowOf, LiveForward;
    var inserted := Inserted(x, db, m, now);
    if inserted.Some? {
      var (db', id) := inserted.value;
      InsertedRows(x, db, m, now);
      if FindByHash(db.rows, m.hash).None? {
        NewRowLiveForward(x, db.rows, m);
      } else {
        SameLiveEdges(db.rows, db'.rows);
        assert SupersedeRows(db'.rows, {}, id) == db'.rows;
      }
    }
  }

  /** Taking out a row moves the later ones up by one. */
  function Shifted(k: nat, i: nat): nat { if i < k then i else i + 1 }

  lemma DeletedEdge(db: Db, id: string) returns (k: nat)
    requires Consistent(db)
    ensures forall i: nat, j: nat :: Edge(Deleted(db, id).0.rows, i, j) ==> Edge(db.rows, Shifted(k, i), Shifted(k, j))
  {
    hide Deleted, Consistent;
    DeleteRemovesOne(db, id);
    var after := Deleted(db, id).0.rows;
    k := |db.rows|;
    if Deleted(db, id).1.Found? {
      k :| 0 <= k < |db.rows| && after == db.rows[..k] + db.rows[k + 1..];
      assert forall i :: 0 <= i < |after| ==> after[i] == db.rows[Shifted(k, i)];
    }
  }

  lemma StepLiveForward(x: Extractors, db: Db, c: Command)
    requires Consistent(db) && LiveForward(db.rows) && NewFact(db, c)
    ensures LiveForward(Step(x, db, c).rows)
  {
    hide LiveForward, Consistent, Deleted, Stored;
    match c
    case DoIngest(req, env) =>
      if Gate(req, env).Ok? {
        StoreLiveForward(x, db, Gate(req, env).value, env.now);
      }
    case DoDelete(id) => DeleteLiveForward(db, id);
    case DoMark(id, consumer) => SameLiveEdges(db.rows, MarkRows(db.rows, id, consumer));
    case DoReplay(envs) =>
      if db.events != [] {
        var es := Envs(envs, |db.events|);
        ReplayNoEdges(x, Wiped(db), db.events, es);
        NoEdgesLiveForward(Replayed(x, Wiped(db), db.events, es).0.rows);
      }
    case _ =>
  }

  lemma DeleteLiveForward(db: Db, id: string)
    requires Consistent(db) && LiveForward(db.rows)
    ensures LiveForward(Deleted(db, id).0.rows)
  {
    hide Deleted, Edge;
    var k := DeletedEdge(db, id);
    forall i: nat, j: nat | Edge(Deleted(db, id).0.rows, i, j)
      ensures i < j
    {
      assert Edge(db.rows, Shifted(k, i), Shifted(k, j));
    }
  }

  lemma NoEdgesLiveForward(rows: seq<Row>)
    requires NoEdges(rows)
    ensures LiveForward(rows)
  {
  }

  /** Over every run whose facts have new content, deletes included, each edge with a live target
      goes from an earlier-inserted row to a later-inserted one. */
  lemma {:induction false} SupersessionLiveForward(x: Extractors, cmds: seq<Command>)
    requires NewFacts(x, cmds)
    ensures LiveForward(Run(x, EMPTY_DB, cmds).rows)
  {
    hide Step, NewFact;
    if cmds != [] {
      SupersessionLiveForward(x, cmds[..|cmds| - 1]);
      ReachableKeeps(x, cmds[..|cmds| - 1]);
      StepLiveForward(x, Run(x, EMPTY_DB, cmds[..|cmds| - 1]), cmds[|cmds| - 1]);
    }
  }

  /** The row that ends the chain from row i: no newer version replaced it. */
  ghost function Latest(rows: seq<Row>, i: nat): (r: nat)
    requires Forward(rows) && i < |rows|
    ensures i <= r < |rows| && !HasEdge(rows[r])
    ensures HasEdge(rows[i]) ==> i < r
    decreases |rows| - i
  {
    if !HasEdge(rows[i]) then i
    else
      assert EdgeForward(rows, i);
      var j :| i < j < |rows| && Edge(rows, i, j);
      Latest(rows, j)
  }

  /** A chain of edges, row by row. */
  ghost predicate Chain(rows: seq<Row>, path: seq<nat>) {
    forall k :: 0 <= k < |path| - 1 ==> Edge(rows, path[k], path[k + 1])
  }

  /** Then no chain of edges comes back to where it started. */
  lemma {:induction false} NoCycle(rows: seq<Row>, path: seq<nat>)
    requires LiveForward(rows) && Chain(rows, path) && |path| >= 2
    ensures path[0] < path[|path| - 1]
  {
    var n := |path| - 1;
    assert Edge(rows, path[n - 1], path[n]);
    if n >= 2 {
      forall k | 0 <= k < n - 1
        ensures Edge(rows, path[..n][k], path[..n][k + 1])
      {
        assert Edge(rows, path[k], path[k + 1]);
      }
      NoCycle(rows, path[..n]);
    }
  }

  // ---- an edge is written once ----

  /** Rows keep their place, and a row that is superseded keeps its mark. */
  ghost predicate MarksStay(rows: seq<Row>, after: seq<Row>) {
    |rows| <= |after| && forall i :: 0 <= i < |rows| ==>
      after[i].id == rows[i].id && (IsSuperseded(rows[i].metadata) ==> after[i].metadata == rows[i].metadata)
  }

  lemma OvertakenUnmarked(x: Extractors, rows: seq<Row>, m: Memory, id: Id, i: nat)
    requires DistinctIds(rows) && i < |rows| && rows[i].id in Overtaken(x, rows, m, id)
    ensures !IsSuperseded(rows[i].metadata)
  {
    var r :| r in rows && Overtakes(x, r, m, id) && r.id == rows[i].id;
    var j :| 0 <= j < |rows| && rows[j] == r;
    assert i == j;
  }

  lemma OvertakeMarksStay(x: Extractors, rows: seq<Row>, m: Memory, id: Id)
    requires DistinctIds(rows)
    ensures MarksStay(rows, SupersedeRows(rows, Overtaken(x, rows, m, id), id))
  {
    forall i | 0 <= i < |rows|
      ensures IsSuperseded(rows[i].metadata) ==> rows[i].id !in Overtaken(x, rows, m, id)
    {
      if rows[i].id in Overtaken(x, rows, m, id) {
        OvertakenUnmarked(x, rows, m, id, i);
      }
    }
  }

  lemma StoreMarksStay(x: Extractors, db: Db, m: Memory, now: int)
    requires Consistent(db)
    ensures MarksStay(db.rows, Stored(x, db, m, now).0.rows)
  {
    hide Inserted, Overtaken, SupersedeRows;
    var inserted := Inserted(x, db, m, now);
    if inserted.Some? {
      var (db', id) := inserted.value;
      InsertKeeps(x, db, m, now);
      InsertedRows(x, db, m, now);
      OvertakeMarksStay(x, db'.rows, m, id);
    }
  }

  lemma StepMarksStay(x: Extractors, db: Db, c: Command)
    requires Consistent(db) && !c.DoDelete? && !c.DoReplay?
    ensures MarksStay(db.rows, Step(x, db, c).rows)
  {
    if c.DoIngest? && Gate(c.req, c.env).Ok? {
      StoreMarksStay(x, db, Gate(c.req, c.env).value, c.env.now);
    }
  }

  /** Each row's edge is written at most once: over any further commands short of delete and
      full rebuild, a superseded row keeps the mark it has, re-ingests included. */
  lemma {:induction false} EdgeWrittenOnce(x: Extractors, db: Db, cmds: seq<Command>)
    requires Consistent(db) && forall c :: c in cmds ==> !c.DoDelete? && !c.DoReplay?
    ensures MarksStay(db.rows, Run(x, db, cmds).rows)
  {
    hide Step;
    if cmds != [] {
      var before := cmds[..|cmds| - 1];
      EdgeWrittenOnce(x, db, before);
      RunKeeps(x, db, before);
      StepMarksStay(x, Run(x, db, before), cmds[|cmds| - 1]);
    }
  }
}
