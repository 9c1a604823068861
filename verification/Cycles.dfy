/** Exactly when supersede marks form a cycle: a known fact is written again and its own chain of
    marks leads to a row that the write overtakes, or a new fact brings a mark that does. */
module Cycles {
  import opened Tables
  import opened Runs
  import opened WriteLaws
  import opened Supersession

  ghost predicate HasCycle(rows: seq<Row>) {
    exists path: seq<nat> :: |path| >= 2 && Chain(rows, path) && path[0] == path[|path| - 1]
  }

  /** The path follows marks from row p to a row with one of the ids. */
  ghost predicate LeadsBy(rows: seq<Row>, p: nat, ids: set<Id>, path: seq<nat>) {
    path != [] && Chain(rows, path) && path[0] == p && path[|path| - 1] < |rows| && rows[path[|path| - 1]].id in ids
  }

  ghost predicate Leads(rows: seq<Row>, p: nat, ids: set<Id>) {
    exists path :: LeadsBy(rows, p, ids, path)
  }

  ghost predicate Unmarked(rows: seq<Row>, ids: set<Id>) {
    forall i :: 0 <= i < |rows| && rows[i].id in ids ==> !HasEdge(rows[i])
  }

  lemma EdgeAfter(rows: seq<Row>, ids: set<Id>, p: nat, i: nat, j: nat)
    requires DistinctIds(rows) && p < |rows| && i < |rows| && j < |rows|
    ensures Edge(SupersedeRows(rows, ids, rows[p].id), i, j)
       <==> if rows[i].id in ids then j == p else Edge(rows, i, j)
  {
    MarkedRow(rows, ids, rows[p].id, i);
    MarkedRow(rows, ids, rows[p].id, j);
  }

  lemma ChainParts(rows: seq<Row>, path: seq<nat>, lo: nat, hi: nat)
    requires Chain(rows, path) && lo <= hi <= |path|
    ensures Chain(rows, path[lo..hi])
  {
    forall k | 0 <= k < hi - lo - 1
      ensures Edge(rows, path[lo..hi][k], path[lo..hi][k + 1])
    {
      assert Edge(rows, path[lo + k], path[lo + k + 1]);
    }
  }

  lemma ChainJoin(rows: seq<Row>, a: seq<nat>, b: seq<nat>)
    requires Chain(rows, a) && Chain(rows, b)
    requires a != [] && b != [] ==> Edge(rows, a[|a| - 1], b[0])
    ensures Chain(rows, a + b)
  {
    forall k | 0 <= k < |a + b| - 1
      ensures Edge(rows, (a + b)[k], (a + b)[k + 1])
    {
      if k < |a| - 1 {
        assert Edge(rows, a[k], a[k + 1]);
      } else if k >= |a| {
        assert Edge(rows, b[k - |a|], b[k - |a| + 1]);
      }
    }
  }

  /** Following marks from p in the new table, the first marked row is reached by old edges. */
  lemma {:induction false} FirstMarked(rows: seq<Row>, ids: set<Id>, p: nat, path: seq<nat>)
    requires DistinctIds(rows) && p < |rows|
    requires path != [] && LeadsBy(SupersedeRows(rows, ids, rows[p].id), path[0], ids, path)
    ensures path[0] < |rows| && Leads(rows, path[0], ids)
    decreases |path|
  {
    var after := SupersedeRows(rows, ids, rows[p].id);
    var i := path[0];
    assert |path| >= 2 ==> Edge(after, path[0], path[1]);
    MarkedIds(rows, ids, rows[p].id);
    if rows[i].id in ids {
      assert LeadsBy(rows, i, ids, [i]);
    } else {
      ChainParts(after, path, 1, |path|);
      FirstMarked(rows, ids, p, path[1..]);
      var rest :| LeadsBy(rows, path[1], ids, rest);
      EdgeAfter(rows, ids, p, i, path[1]);
      ChainJoin(rows, [i], rest);
      assert LeadsBy(rows, i, ids, [i] + rest);
    }
  }

  lemma MarkedIds(rows: seq<Row>, ids: set<Id>, newId: Id)
    ensures var after := SupersedeRows(rows, ids, newId);
      |after| == |rows| && forall i :: 0 <= i < |rows| ==> after[i].id == rows[i].id
  {
  }

  /** Old edges that leave unmarked rows are still there. */
  lemma OldChain(rows: seq<Row>, ids: set<Id>, p: nat, path: seq<nat>)
    requires DistinctIds(rows) && p < |rows| && Unmarked(rows, ids) && Chain(rows, path)
    ensures Chain(SupersedeRows(rows, ids, rows[p].id), path)
  {
    forall k | 0 <= k < |path| - 1
      ensures Edge(SupersedeRows(rows, ids, rows[p].id), path[k], path[k + 1])
    {
      assert Edge(rows, path[k], path[k + 1]);
      EdgeAfter(rows, ids, p, path[k], path[k + 1]);
    }
  }

  /** Marking rows as replaced by the row at p closes a cycle exactly when the marks that were there
      lead from p to one of them. */
  lemma MarkCycleIff(rows: seq<Row>, ids: set<Id>, p: nat)
    requires DistinctIds(rows) && !HasCycle(rows) && p < |rows| && Unmarked(rows, ids)
    ensures HasCycle(SupersedeRows(rows, ids, rows[p].id)) <==> Leads(rows, p, ids)
  {
    var after := SupersedeRows(rows, ids, rows[p].id);
    MarkedIds(rows, ids, rows[p].id);
    if Leads(rows, p, ids) {
      var path :| LeadsBy(rows, p, ids, path);
      OldChain(rows, ids, p, path);
      EdgeAfter(rows, ids, p, path[|path| - 1], p);
      ChainJoin(after, path, [p]);
      assert (path + [p])[0] == (path + [p])[|path|];
    }
    if HasCycle(after) {
      var path: seq<nat> :| |path| >= 2 && Chain(after, path) && path[0] == path[|path| - 1];
      var k := NewEdgeOn(rows, ids, p, path);
      var turned := Turned(path, k);
      TurnedChain(after, path, k);
      assert LeadsBy(after, p, ids, turned);
      FirstMarked(rows, ids, p, turned);
    }
  }

  /** A cycle uses a new edge, from a marked row to p. */
  lemma NewEdgeOn(rows: seq<Row>, ids: set<Id>, p: nat, path: seq<nat>) returns (k: nat)
    requires DistinctIds(rows) && !HasCycle(rows) && p < |rows|
    requires |path| >= 2 && Chain(SupersedeRows(rows, ids, rows[p].id), path) && path[0] == path[|path| - 1]
    ensures k < |path| - 1 && path[k] < |rows| && rows[path[k]].id in ids && path[k + 1] == p
  {
    var after := SupersedeRows(rows, ids, rows[p].id);
    MarkedIds(rows, ids, rows[p].id);
    assert !Chain(rows, path);
    k :| 0 <= k < |path| - 1 && !Edge(rows, path[k], path[k + 1]);
    assert Edge(after, path[k], path[k + 1]);
    EdgeAfter(rows, ids, p, path[k], path[k + 1]);
  }

  /** The closed path, turned to start after position k and to end at it. */
  function Turned(path: seq<nat>, k: nat): (r: seq<nat>)
    requires k < |path| - 1
    ensures r != [] && r[0] == path[k + 1]
  {
    path[k + 1..] + path[1..k + 1]
  }

  lemma TurnedChain(rows: seq<Row>, path: seq<nat>, k: nat)
    requires |path| >= 2 && k < |path| - 1 && Chain(rows, path) && path[0] == path[|path| - 1]
    ensures Chain(rows, Turned(path, k)) && Turned(path, k)[|Turned(path, k)| - 1] == path[k]
  {
    hide Edge;
    ChainParts(rows, path, k + 1, |path|);
    ChainParts(rows, path, 1, k + 1);
    assert Edge(rows, path[0], path[1]);
    assert path[k + 1..|path|] == path[k + 1..];
    ChainJoin(rows, path[k + 1..], path[1..k + 1]);
  }

  // ---- the write path ----

  lemma OvertakenUnmarkedAll(x: Extractors, rows: seq<Row>, m: Memory, id: Id)
    requires DistinctIds(rows)
    ensures Unmarked(rows, Overtaken(x, rows, m, id))
  {
    forall i | 0 <= i < |rows| && rows[i].id in Overtaken(x, rows, m, id)
      ensures !HasEdge(rows[i])
    {
      OvertakenUnmarked(x, rows, m, id, i);
    }
  }

  ghost predicate SameMarks(rows: seq<Row>, after: seq<Row>) {
    |after| == |rows|
    && forall i :: 0 <= i < |rows| ==> after[i].id == rows[i].id && after[i].metadata == rows[i].metadata
  }

  lemma SameChain(rows: seq<Row>, after: seq<Row>, path: seq<nat>)
    requires SameMarks(rows, after)
    ensures Chain(rows, path) <==> Chain(after, path)
  {
    forall k | 0 <= k < |path| - 1
      ensures Edge(rows, path[k], path[k + 1]) <==> Edge(after, path[k], path[k + 1])
    {
    }
  }

  lemma SameCycles(rows: seq<Row>, after: seq<Row>, p: nat, ids: set<Id>)
    requires SameMarks(rows, after)
    ensures HasCycle(rows) <==> HasCycle(after)
    ensures Leads(rows, p, ids) <==> Leads(after, p, ids)
  {
    forall path: seq<nat>
      ensures Chain(rows, path) <==> Chain(after, path)
      ensures LeadsBy(rows, p, ids, path) <==> LeadsBy(after, p, ids, path)
    {
      SameChain(rows, after, path);
    }
    if HasCycle(after) {
      var path: seq<nat> :| |path| >= 2 && Chain(after, path) && path[0] == path[|path| - 1];
      assert Chain(rows, path);
    }
    if HasCycle(rows) {
      var path: seq<nat> :| |path| >= 2 && Chain(rows, path) && path[0] == path[|path| - 1];
      assert Chain(after, path);
    }
  }

  /** Backfilling the written row changes nothing about what it overtakes. */
  lemma OvertakenAnyway(x: Extractors, rows: seq<Row>, m: Memory, id: Id)
    ensures Overtaken(x, BackfillRows(rows, id, m.prov), m, id) == Overtaken(x, rows, m, id)
  {
    hide SameTopic, SharedTerms, IsSuperseded;
    var after := BackfillRows(rows, id, m.prov);
    forall r | r in rows && Overtakes(x, r, m, id)
      ensures r in after
    {
      var i :| 0 <= i < |rows| && rows[i] == r;
      assert after[i] == r;
    }
    forall r | r in after && Overtakes(x, r, m, id)
      ensures r in rows
    {
      var i :| 0 <= i < |after| && after[i] == r;
      assert rows[i] == r;
    }
  }

  /** When known content is written again, a cycle appears exactly when the marks lead from its row
      to a row the write overtakes. */
  lemma ReingestCycleIff(x: Extractors, db: Db, m: Memory, now: int, p: nat)
    requires Consistent(db) && !HasCycle(db.rows) && p < |db.rows| && db.rows[p].hash == m.hash
    ensures HasCycle(Stored(x, db, m, now).0.rows)
       <==> Leads(db.rows, p, Overtaken(x, db.rows, m, db.rows[p].id))
  {
    hide Consistent, Overtaken, HasCycle, Leads;
    var id := db.rows[p].id;
    var rows := BackfillRows(db.rows, id, m.prov);
    RowsDistinct(db);
    assert FindByHash(db.rows, m.hash) == Some(id) by { FoundIff(db.rows, m.hash, id); }
    BackfillMarks(db.rows, id, m.prov);
    OvertakenAnyway(x, db.rows, m, id);
    var ids := Overtaken(x, rows, m, id);
    assert Stored(x, db, m, now).0.rows == SupersedeRows(rows, ids, id) by { KnownStored(x, db, m, now); }
    SameCycles(db.rows, rows, p, ids);
    OvertakenUnmarkedAll(x, rows, m, id);
    MarkCycleIff(rows, ids, p);
  }

  lemma BackfillMarks(rows: seq<Row>, id: Id, p: Provenance)
    requires DistinctRows(rows)
    ensures SameMarks(rows, BackfillRows(rows, id, p)) && DistinctIds(BackfillRows(rows, id, p))
  {
  }

  lemma KnownStored(x: Extractors, db: Db, m: Memory, now: int)
    requires FindByHash(db.rows, m.hash).Some?
    ensures var id := FindByHash(db.rows, m.hash).value; var rows := BackfillRows(db.rows, id, m.prov);
      Stored(x, db, m, now).0.rows == SupersedeRows(rows, Overtaken(x, rows, m, id), id)
  {
  }

  lemma LeadsSelf(rows: seq<Row>, p: nat, ids: set<Id>)
    requires p < |rows| && !HasEdge(rows[p])
    ensures Leads(rows, p, ids) <==> rows[p].id in ids
  {
    assert rows[p].id in ids ==> LeadsBy(rows, p, ids, [p]);
    forall path | LeadsBy(rows, p, ids, path)
      ensures rows[p].id in ids
    {
      assert |path| >= 2 ==> Edge(rows, path[0], path[1]);
    }
  }

  /** While all edges go forward, that is one lookup: the row at the end of the chain. */
  lemma {:induction false} LeadsIffLatest(rows: seq<Row>, p: nat, ids: set<Id>)
    requires DistinctIds(rows) && Forward(rows) && p < |rows| && Unmarked(rows, ids)
    ensures Leads(rows, p, ids) <==> rows[Latest(rows, p)].id in ids
    decreases |rows| - p
  {
    if !HasEdge(rows[p]) {
      LeadsSelf(rows, p, ids);
    } else {
      assert EdgeForward(rows, p);
      var j :| p < j < |rows| && Edge(rows, p, j) && Latest(rows, p) == Latest(rows, j);
      LeadsIffLatest(rows, j, ids);
      hide Latest, Forward, EdgeForward;
      LeadsOneOn(rows, p, j, ids);
    }
  }

  lemma LeadsOneOn(rows: seq<Row>, p: nat, j: nat, ids: set<Id>)
    requires DistinctIds(rows) && Unmarked(rows, ids) && Edge(rows, p, j)
    ensures Leads(rows, p, ids) <==> Leads(rows, j, ids)
  {
    if Leads(rows, j, ids) {
      var path :| LeadsBy(rows, j, ids, path);
      ChainJoin(rows, [p], path);
      assert LeadsBy(rows, p, ids, [p] + path);
    }
    if Leads(rows, p, ids) {
      var path :| LeadsBy(rows, p, ids, path);
      assert |path| >= 2;
      assert Edge(rows, path[0], path[1]);
      ChainParts(rows, path, 1, |path|);
      assert path[1..|path|] == path[1..];
      assert LeadsBy(rows, j, ids, path[1..]);
    }
  }

  lemma ForwardHasNoCycle(rows: seq<Row>)
    requires DistinctIds(rows) && Forward(rows)
    ensures !HasCycle(rows)
  {
    ForwardIsLive(rows);
    forall path: seq<nat> | |path| >= 2 && Chain(rows, path)
      ensures path[0] != path[|path| - 1]
    {
      NoCycle(rows, path);
    }
  }

  /** So while all edges go forward, writing a known fact again makes a cycle exactly when it
      overtakes the newest version of that same fact. */
  lemma ReingestCycleIffLatest(x: Extractors, db: Db, m: Memory, now: int, p: nat)
    requires Consistent(db) && Forward(db.rows) && p < |db.rows| && db.rows[p].hash == m.hash
    ensures HasCycle(Stored(x, db, m, now).0.rows)
       <==> db.rows[Latest(db.rows, p)].id in Overtaken(x, db.rows, m, db.rows[p].id)
  {
    hide Stored, HasCycle, Leads, Overtaken, Forward;
    RowIds(db);
    ForwardHasNoCycle(db.rows);
    ReingestCycleIff(x, db, m, now, p);
    OvertakenUnmarkedAll(x, db.rows, m, db.rows[p].id);
    LeadsIffLatest(db.rows, p, Overtaken(x, db.rows, m, db.rows[p].id));
  }

  lemma RowIds(db: Db)
    requires Consistent(db)
    ensures DistinctIds(db.rows)
  {
  }

  // ---- whole runs ----

  /** What the new row's own mark, if it brings one, leads to must be neither the row itself, where
      a deleted row's id comes back, nor a row the write overtakes. */
  ghost predicate NewRowCloses(x: Extractors, rows: seq<Row>, m: Memory, q: nat) {
    var after := rows + [RowOf(x, m)];
    Edge(after, |rows|, q) && Leads(after, q, Overtaken(x, after, m, m.id) + {m.id})
  }

  /** A committed write closes no cycle: the marks of a known content's row lead to no row it
      overtakes, and neither does the mark that a new row brings, which does not lead back to it. */
  ghost predicate ClosesNone(x: Extractors, db: Db, c: Command) {
    c.DoIngest? && Ingested(x, db, c.req, c.env).1.Ok? ==>
      var m := Gate(c.req, c.env).value;
      if FindByHash(db.rows, m.hash).Some? then
        forall p: nat :: p < |db.rows| && db.rows[p].hash == m.hash ==>
          !Leads(db.rows, p, Overtaken(x, db.rows, m, db.rows[p].id))
      else
        forall q: nat :: !NewRowCloses(x, db.rows, m, q)
  }

  lemma LeadsUnion(rows: seq<Row>, p: nat, a: set<Id>, b: set<Id>)
    ensures Leads(rows, p, a + b) <==> Leads(rows, p, a) || Leads(rows, p, b)
  {
    if Leads(rows, p, a + b) {
      var path :| LeadsBy(rows, p, a + b, path);
      assert LeadsBy(rows, p, a, path) || LeadsBy(rows, p, b, path);
    }
    if Leads(rows, p, a) {
      var path :| LeadsBy(rows, p, a, path);
      assert LeadsBy(rows, p, a + b, path);
    }
    if Leads(rows, p, b) {
      var path :| LeadsBy(rows, p, b, path);
      assert LeadsBy(rows, p, a + b, path);
    }
  }

  /** From a row outside the set, a chain into it starts with the row's own mark. */
  lemma LeadsByMark(rows: seq<Row>, p: nat, ids: set<Id>)
    requires p < |rows| && rows[p].id !in ids
    ensures Leads(rows, p, ids) <==> exists q: nat :: Edge(rows, p, q) && Leads(rows, q, ids)
  {
    if Leads(rows, p, ids) {
      var path :| LeadsBy(rows, p, ids, path);
      assert |path| >= 2;
      assert Edge(rows, path[0], path[1]);
      ChainParts(rows, path, 1, |path|);
      assert path[1..|path|] == path[1..];
      assert LeadsBy(rows, path[1], ids, path[1..]);
    }
    if q: nat :| Edge(rows, p, q) && Leads(rows, q, ids) {
      var path :| LeadsBy(rows, q, ids, path);
      ChainJoin(rows, [p], path);
      assert LeadsBy(rows, p, ids, [p] + path);
    }
  }

  /** A cycle that the appended row closes runs through it. */
  lemma ThroughNew(rows: seq<Row>, row: Row, path: seq<nat>) returns (k: nat)
    requires !HasCycle(rows) && |path| >= 2 && Chain(rows + [row], path) && path[0] == path[|path| - 1]
    ensures k < |path| - 1 && path[k] == |rows|
  {
    assert !Chain(rows, path);
    k :| 0 <= k < |path| - 1 && !Edge(rows, path[k], path[k + 1]);
    assert Edge(rows + [row], path[k], path[k + 1]);
    if path[k] != |rows| {
      k := if k + 1 < |path| - 1 then k + 1 else 0;
    }
  }

  /** Appending a row closes a cycle exactly when the row's own mark leads back to it. */
  lemma AppendCycleIff(rows: seq<Row>, row: Row)
    requires !HasCycle(rows) && DistinctIds(rows + [row])
    ensures var after, n := rows + [row], |rows|;
      HasCycle(after) <==> exists q: nat :: Edge(after, n, q) && Leads(after, q, {row.id})
  {
    hide Edge;
    var after, n := rows + [row], |rows|;
    if HasCycle(after) {
      var path: seq<nat> :| |path| >= 2 && Chain(after, path) && path[0] == path[|path| - 1];
      var k := ThroughNew(rows, row, path);
      TurnedChain(after, path, k);
      assert LeadsBy(after, path[k + 1], {row.id}, Turned(path, k));
      assert Edge(after, path[k], path[k + 1]);
    }
    if q: nat :| Edge(after, n, q) && Leads(after, q, {row.id}) {
      var path :| LeadsBy(after, q, {row.id}, path);
      var last := path[|path| - 1];
      assert last == n by { assert after[n].id == row.id; }
      ChainJoin(after, [n], path);
      assert ([n] + path)[0] == ([n] + path)[|path|];
    }
  }

  /** Marks on rows that had none keep every cycle that was there. */
  lemma CycleStays(rows: seq<Row>, ids: set<Id>, p: nat)
    requires DistinctIds(rows) && p < |rows| && Unmarked(rows, ids) && HasCycle(rows)
    ensures HasCycle(SupersedeRows(rows, ids, rows[p].id))
  {
    hide Chain;
    var path: seq<nat> :| |path| >= 2 && Chain(rows, path) && path[0] == path[|path| - 1];
    OldChain(rows, ids, p, path);
  }

  /** Writing new content makes a cycle exactly when the mark it brings itself leads back to the new
      row or to a row the write overtakes. */
  lemma NewRowCycleIff(x: Extractors, rows: seq<Row>, m: Memory)
    requires DistinctIds(rows) && !HasCycle(rows) && !HasId(rows, m.id)
    ensures var after := rows + [RowOf(x, m)];
      HasCycle(SupersedeRows(after, Overtaken(x, after, m, m.id), m.id))
      <==> exists q: nat :: NewRowCloses(x, rows, m, q)
  {
    hide Overtaken, HasCycle, RowOf, Edge, Leads;
    var after, n := rows + [RowOf(x, m)], |rows|;
    NewRowMarks(x, m);
    var ids := Overtaken(x, after, m, m.id);
    OvertakenNotSelf(x, after, m, m.id);
    OvertakenUnmarkedAll(x, after, m, m.id);
    AppendCycleIff(rows, RowOf(x, m));
    forall q: nat
      ensures NewRowCloses(x, rows, m, q) <==> Edge(after, n, q) && (Leads(after, q, ids) || Leads(after, q, {m.id}))
    {
      LeadsUnion(after, q, ids, {m.id});
    }
    if HasCycle(after) {
      CycleStays(after, ids, n);
    } else {
      MarkCycleIff(after, ids, n);
      LeadsByMark(after, n, ids);
    }
  }

  lemma StoreNoCycleIff(x: Extractors, db: Db, m: Memory, now: int)
    requires Consistent(db) && !HasCycle(db.rows) && Stored(x, db, m, now).1.Ok?
    ensures !HasCycle(Stored(x, db, m, now).0.rows)
       <==> if FindByHash(db.rows, m.hash).Some? then
              forall p: nat :: p < |db.rows| && db.rows[p].hash == m.hash ==>
                !Leads(db.rows, p, Overtaken(x, db.rows, m, db.rows[p].id))
            else
              forall q: nat :: !NewRowCloses(x, db.rows, m, q)
  {
    hide Overtaken, HasCycle, Leads, Inserted, NewRowCloses;
    RowsDistinct(db);
    hide Consistent;
    if FindByHash(db.rows, m.hash).Some? {
      var p :| 0 <= p < |db.rows| && db.rows[p].hash == m.hash;
      ReingestCycleIff(x, db, m, now, p);
      assert forall q :: 0 <= q < |db.rows| && q != p ==> db.rows[q].hash != db.rows[p].hash;
    } else {
      InsertedRows(x, db, m, now);
      NewRowCycleIff(x, db.rows, m);
    }
  }

  /** Without a mark of its own a new row never closes a cycle. */
  lemma PlainClosesNone(x: Extractors, rows: seq<Row>, m: Memory, q: nat)
    requires m.metadata.supersededBy.None?
    ensures !NewRowCloses(x, rows, m, q)
  {
    hide Leads, Overtaken;
    NewRowMarks(x, m);
  }

  lemma DeleteNoCycle(db: Db, id: string)
    requires Consistent(db) && !HasCycle(db.rows)
    ensures !HasCycle(Deleted(db, id).0.rows)
  {
    hide Deleted, Edge, Consistent;
    var k := DeletedEdge(db, id);
    var after := Deleted(db, id).0.rows;
    forall path: seq<nat> | |path| >= 2 && Chain(after, path)
      ensures path[0] != path[|path| - 1]
    {
      var before := seq(|path|, i requires 0 <= i < |path| => Shifted(k, path[i]));
      forall i | 0 <= i < |path| - 1
        ensures Edge(db.rows, before[i], before[i + 1])
      {
        assert Edge(after, path[i], path[i + 1]);
      }
      assert Chain(db.rows, before);
    }
  }

  lemma NoEdgesNoCycle(rows: seq<Row>)
    requires NoEdges(rows)
    ensures !HasCycle(rows)
  {
    forall path: seq<nat> | |path| >= 2
      ensures !Chain(rows, path)
    {
      assert !Edge(rows, path[0], path[1]);
    }
  }

  lemma StepNoCycleIff(x: Extractors, db: Db, c: Command)
    requires Consistent(db) && !HasCycle(db.rows)
    ensures !HasCycle(Step(x, db, c).rows) <==> ClosesNone(x, db, c)
  {
    hide Consistent, HasCycle, Leads, Stored, Deleted;
    match c
    case DoIngest(req, env) =>
      if Ingested(x, db, req, env).1.Ok? {
        StoreNoCycleIff(x, db, Gate(req, env).value, env.now);
      } else {
        FailedWrite(x, db, req, env);
      }
    case DoDelete(id) => DeleteNoCycle(db, id);
    case DoMark(id, consumer) => SameCycles(db.rows, MarkRows(db.rows, id, consumer), 0, {});
    case DoReplay(envs) =>
      if db.events != [] {
        var es := Envs(envs, |db.events|);
        ReplayNoEdges(x, Wiped(db), db.events, es);
        NoEdgesNoCycle(Replayed(x, Wiped(db), db.events, es).0.rows);
      }
    case _ =>
  }

  ghost predicate AlwaysAcyclic(x: Extractors, cmds: seq<Command>) {
    !HasCycle(Run(x, EMPTY_DB, cmds).rows) && (cmds != [] ==> AlwaysAcyclic(x, cmds[..|cmds| - 1]))
  }

  ghost predicate NeverCloses(x: Extractors, cmds: seq<Command>) {
    cmds != [] ==>
      NeverCloses(x, cmds[..|cmds| - 1])
      && ClosesNone(x, Run(x, EMPTY_DB, cmds[..|cmds| - 1]), cmds[|cmds| - 1])
  }

  /** Over every run of any commands, supersession is acyclic in every state exactly when no
      committed write closes a cycle in that sense. */
  lemma {:induction false} AlwaysAcyclicIff(x: Extractors, cmds: seq<Command>)
    ensures AlwaysAcyclic(x, cmds) <==> NeverCloses(x, cmds)
  {
    hide Step, HasCycle, ClosesNone, Consistent;
    if cmds == [] {
      NoEdgesNoCycle([]);
    } else {
      var before := cmds[..|cmds| - 1];
      AlwaysAcyclicIff(x, before);
      if AlwaysAcyclic(x, before) {
        ReachableKeeps(x, before);
        StepNoCycleIff(x, Run(x, EMPTY_DB, before), cmds[|cmds| - 1]);
      }
    }
  }
}
