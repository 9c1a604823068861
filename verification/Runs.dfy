/** Whole runs of the store, and what every reachable state keeps: keys are unique, every row is
    traced to its event, the full-text index mirrors the rows, and the log only grows. */
module Runs {
  import opened Lists
  import opened Text
  import opened Consumers
  import opened Tables

  datatype Command =
    | DoIngest(req: Request, env: Env)
    | DoDelete(id: string)
    | DoMark(id: string, consumer: Consumer)
    | DoLink(a: string, b: string)
    | DoUnlink(a: string, b: string)
    | DoResolve
    | DoReindex
    | DoReplay(envs: nat -> Env)

  function Envs(envs: nat -> Env, n: nat): (r: seq<Env>)
    ensures |r| == n
  {
    seq(n, i requires 0 <= i < n => envs(i))
  }

  /** One command; a command that fails leaves the tables as they are. */
  function Step(x: Extractors, db: Db, c: Command): Db {
    match c
    case DoIngest(req, env) => Ingested(x, db, req, env).0
    case DoDelete(id) => Deleted(db, id).0
    case DoMark(id, consumer) => db.(rows := MarkRows(db.rows, id, consumer))
    case DoLink(a, b) => Linked(db, a, b)
    case DoUnlink(a, b) => Unlinked(db, a, b)
    case DoResolve => Resolved(x, db).0
    case DoReindex => Reindexed(x, db).0
    case DoReplay(envs) =>
      var r := Rebuilt(x, db, Envs(envs, |db.events|));
      if r.None? then db else r.value.0
  }

  function Run(x: Extractors, db: Db, cmds: seq<Command>): Db {
    if cmds == [] then db else Step(x, Run(x, db, cmds[..|cmds| - 1]), cmds[|cmds| - 1])
  }

  // ---- what every state keeps ----

  ghost predicate DistinctEvents(events: seq<Event>) {
    forall i, j :: 0 <= i < j < |events| ==> events[i].id != events[j].id
  }

  ghost predicate DistinctRows(rows: seq<Row>) {
    forall i, j :: 0 <= i < j < |rows| ==> rows[i].id != rows[j].id && rows[i].hash != rows[j].hash
  }

  ghost predicate Traced(events: seq<Event>, rows: seq<Row>) {
    forall i :: 0 <= i < |rows| ==> rows[i].rawEntry == rows[i].hash && HasEvent(events, rows[i].rawEntry)
  }

  ghost predicate Consistent(db: Db) {
    && DistinctEvents(db.events)
    && DistinctRows(db.rows)
    && Traced(db.events, db.rows)
    && db.fts == FtsOf(db.rows)
    && (forall t :: t in db.tags ==> HasId(db.rows, t.0))
    && (forall l :: l in db.links ==> HasId(db.rows, l.0))
  }

  /** The identity of an event; only provenance may still change. */
  ghost predicate SameEvent(e: Event, f: Event) {
    e.id == f.id && e.content == f.content && e.source == f.source && e.ingestedAt == f.ingestedAt
  }

  /** q keeps every non-empty field of p. */
  ghost predicate Enriches(p: Provenance, q: Provenance) { Backfill(p, q) == q }

  /** Append only: the old sequence is a prefix, up to provenance that was still empty. */
  ghost predicate Grows(before: seq<Event>, after: seq<Event>) {
    && |before| <= |after|
    && forall i :: 0 <= i < |before| ==>
        SameEvent(before[i], after[i]) && Enriches(before[i].prov, after[i].prov)
  }

  lemma EnrichesFields(p: Provenance, q: Provenance)
    requires Enriches(p, q)
    ensures p.session != "" ==> q.session == p.session
    ensures p.project != "" ==> q.project == p.project
    ensures p.tmux != "" ==> q.tmux == p.tmux
    ensures p.message != "" ==> q.message == p.message
    ensures p.parent != "" ==> q.parent == p.parent
    ensures p.role != "" ==> q.role == p.role
    ensures p.branch != "" ==> q.branch == p.branch
    ensures p.model != "" ==> q.model == p.model
    ensures p.prompt != "" ==> q.prompt == p.prompt
  {
  }

  /** Backfilling is associative and idempotent, so "first non-empty" is well defined. */
  lemma BackfillLaws(p: Provenance, q: Provenance, r: Provenance)
    ensures Backfill(Backfill(p, q), r) == Backfill(p, Backfill(q, r))
    ensures Backfill(p, p) == p && Backfill(NO_PROVENANCE, p) == p && Backfill(p, NO_PROVENANCE) == p
  {
  }

  lemma GrowsTransitive(a: seq<Event>, b: seq<Event>, c: seq<Event>)
    requires Grows(a, b) && Grows(b, c)
    ensures Grows(a, c)
  {
    forall i | 0 <= i < |a|
      ensures SameEvent(a[i], c[i]) && Enriches(a[i].prov, c[i].prov)
    {
      BackfillLaws(a[i].prov, b[i].prov, c[i].prov);
    }
  }

  lemma GrowsReflexive(events: seq<Event>)
    ensures Grows(events, events)
  {
    forall i | 0 <= i < |events|
      ensures Enriches(events[i].prov, events[i].prov)
    {
      BackfillLaws(events[i].prov, NO_PROVENANCE, NO_PROVENANCE);
    }
  }

  /** Growth is antisymmetric: a log that grew and came back never changed. */
  lemma GrowsAntisymmetric(a: seq<Event>, b: seq<Event>)
    requires Grows(a, b) && Grows(b, a)
    ensures a == b
  {
    forall i | 0 <= i < |a|
      ensures a[i] == b[i]
    {
      assert SameEvent(a[i], b[i]) && Enriches(a[i].prov, b[i].prov);
      EnrichesFields(a[i].prov, b[i].prov);
      EnrichesFields(b[i].prov, a[i].prov);
    }
  }

  // ---- the log ----

  function LogAfter(events: seq<Event>, m: Memory, now: int): seq<Event> {
    BackfillEvents(AppendEvent(events, EventOf(m, now)), m.hash, m.prov)
  }

  lemma LogGrows(events: seq<Event>, m: Memory, now: int)
    requires DistinctEvents(events)
    ensures Grows(events, LogAfter(events, m, now)) && DistinctEvents(LogAfter(events, m, now))
    ensures HasEvent(LogAfter(events, m, now), m.hash)
    ensures forall id :: HasEvent(events, id) ==> HasEvent(LogAfter(events, m, now), id)
  {
    var appended, after := AppendEvent(events, EventOf(m, now)), LogAfter(events, m, now);
    forall i | 0 <= i < |events|
      ensures SameEvent(events[i], after[i]) && Enriches(events[i].prov, after[i].prov)
    {
      BackfillLaws(events[i].prov, events[i].prov, m.prov);
      BackfillLaws(events[i].prov, NO_PROVENANCE, NO_PROVENANCE);
    }
    forall id | HasEvent(appended, id)
      ensures HasEvent(after, id)
    {
      var i :| 0 <= i < |appended| && appended[i].id == id;
      assert after[i].id == id;
    }
    forall id | HasEvent(events, id)
      ensures HasEvent(appended, id)
    {
      var i :| 0 <= i < |events| && events[i].id == id;
      assert appended[i].id == id;
    }
    assert HasEvent(appended, m.hash) by {
      if !HasEvent(events, m.hash) {
        assert appended[|events|].id == m.hash;
      }
    }
  }

  // ---- updates that leave the identity of every row alone ----

  ghost predicate SameRow(r: Row, s: Row) {
    r.id == s.id && r.hash == s.hash && r.rawEntry == s.rawEntry && r.content == s.content
    && r.scope == s.scope && r.source == s.source
  }

  ghost predicate SameRows(rows: seq<Row>, after: seq<Row>) {
    |rows| == |after| && forall i :: 0 <= i < |rows| ==> SameRow(rows[i], after[i])
  }

  lemma SameRowsKeep(events: seq<Event>, rows: seq<Row>, after: seq<Row>)
    requires SameRows(rows, after) && DistinctRows(rows) && Traced(events, rows)
    ensures DistinctRows(after) && Traced(events, after) && FtsOf(after) == FtsOf(rows)
    ensures forall id :: HasId(after, id) <==> HasId(rows, id)
  {
    forall i | 0 <= i < |rows|
      ensures after[i].id == rows[i].id && after[i].hash == rows[i].hash && FtsOfRow(after[i]) == FtsOfRow(rows[i])
      ensures after[i].rawEntry == after[i].hash && HasEvent(events, after[i].rawEntry)
    {
      assert SameRow(rows[i], after[i]);
    }
    forall id
      ensures HasId(after, id) <==> HasId(rows, id)
    {
      if HasId(rows, id) {
        var i :| 0 <= i < |rows| && rows[i].id == id;
        assert after[i].id == id;
      }
      if HasId(after, id) {
        var i :| 0 <= i < |after| && after[i].id == id;
        assert rows[i].id == id;
      }
    }
  }

  lemma UpdateKeeps(db: Db, after: seq<Row>)
    requires Consistent(db) && SameRows(db.rows, after)
    ensures Consistent(db.(rows := after))
  {
    SameRowsKeep(db.events, db.rows, after);
  }

  // ---- ingest ----

  lemma NewRowKeeps(db: Db, row: Row, tags: seq<string>)
    requires Consistent(db) && !HasId(db.rows, row.id) && FindByHash(db.rows, row.hash).None?
    requires row.rawEntry == row.hash && HasEvent(db.events, row.hash)
    ensures Consistent(Db(db.events, db.rows + [row], db.tags + TagRows(row.id, tags), db.links,
                          db.fts + [FtsOfRow(row)]))
  {
    var rows := db.rows + [row];
    forall id | HasId(db.rows, id) || id == row.id
      ensures HasId(rows, id)
    {
      if id == row.id {
        assert rows[|db.rows|].id == id;
      } else {
        var i :| 0 <= i < |db.rows| && db.rows[i].id == id;
        assert rows[i].id == id;
      }
    }
    assert forall i :: 0 <= i < |db.rows| ==> db.rows[i].id != row.id && db.rows[i].hash != row.hash;
  }

  lemma LogStepKeeps(db: Db, events: seq<Event>)
    requires Consistent(db) && DistinctEvents(events)
    requires forall id :: HasEvent(db.events, id) ==> HasEvent(events, id)
    ensures Consistent(db.(events := events))
  {
  }

  lemma InsertKeeps(x: Extractors, db: Db, m: Memory, now: int)
    requires Consistent(db) && Inserted(x, db, m, now).Some?
    ensures Consistent(Inserted(x, db, m, now).value.0)
    ensures Grows(db.events, Inserted(x, db, m, now).value.0.events)
  {
    hide Grows, DistinctEvents, BackfillEvents, AppendEvent, MergedTags;
    LogGrows(db.events, m, now);
    var logged := db.(events := LogAfter(db.events, m, now));
    LogStepKeeps(db, logged.events);
    var tags := MergedTags(m.tags, x.keywords(m.content));
    var existing := FindByHash(db.rows, m.hash);
    if existing.None? {
      NewRowKeeps(logged, RowOf(x, m), tags);
    } else {
      var id := existing.value;
      UpdateKeeps(logged, BackfillRows(db.rows, id, m.prov));
      SameRowsKeep(logged.events, db.rows, BackfillRows(db.rows, id, m.prov));
      assert HasId(db.rows, id);
    }
  }

  lemma StoreKeeps(x: Extractors, db: Db, m: Memory, now: int)
    requires Consistent(db)
    ensures Consistent(Stored(x, db, m, now).0)
    ensures Grows(db.events, Stored(x, db, m, now).0.events)
  {
    GrowsReflexive(db.events);
    var inserted := Inserted(x, db, m, now);
    if inserted.Some? {
      InsertKeeps(x, db, m, now);
      var (db', id) := inserted.value;
      UpdateKeeps(db', SupersedeRows(db'.rows, Overtaken(x, db'.rows, m, id), id));
    }
  }

  lemma IngestKeeps(x: Extractors, db: Db, req: Request, env: Env)
    requires Consistent(db)
    ensures Consistent(Ingested(x, db, req, env).0)
    ensures Grows(db.events, Ingested(x, db, req, env).0.events)
  {
    GrowsReflexive(db.events);
    if Gate(req, env).Ok? {
      StoreKeeps(x, db, Gate(req, env).value, env.now);
    }
  }

  // ---- delete ----

  lemma {:induction false} DistinctRowsFilter(rows: seq<Row>, p: Row -> bool)
    requires DistinctRows(rows)
    ensures DistinctRows(Filter(rows, p))
  {
    if rows != [] {
      var before, last := rows[..|rows| - 1], rows[|rows| - 1];
      DistinctRowsFilter(before, p);
      var kept := Filter(before, p);
      forall i | 0 <= i < |kept|
        ensures kept[i].id != last.id && kept[i].hash != last.hash
      {
        assert kept[i] in kept;
        var j :| 0 <= j < |before| && before[j] == kept[i];
        assert rows[j] == kept[i];
      }
    }
  }

  lemma HasIdFilter(rows: seq<Row>, id: Id, other: string)
    ensures HasId(Filter(rows, NotId(id)), other) <==> HasId(rows, other) && other != id
  {
    var kept := Filter(rows, NotId(id));
    if HasId(rows, other) && other != id {
      var i :| 0 <= i < |rows| && rows[i].id == other;
      assert rows[i] in kept;
      var j :| 0 <= j < |kept| && kept[j] == rows[i];
    }
    if HasId(kept, other) {
      var j :| 0 <= j < |kept| && kept[j].id == other;
      assert kept[j] in kept;
      var i :| 0 <= i < |rows| && rows[i] == kept[j];
    }
  }

  lemma RemoveKeeps(db: Db, id: Id)
    requires Consistent(db)
    ensures Consistent(Removed(db, id))
  {
    FilterMap(db.rows, FtsOfRow, NotId(id), NotFtsId(id));
    DistinctRowsFilter(db.rows, NotId(id));
    var kept := Filter(db.rows, NotId(id));
    forall i | 0 <= i < |kept|
      ensures kept[i].rawEntry == kept[i].hash && HasEvent(db.events, kept[i].rawEntry)
    {
      assert kept[i] in kept;
      var j :| 0 <= j < |db.rows| && db.rows[j] == kept[i];
    }
    forall other: string
      ensures HasId(kept, other) <==> HasId(db.rows, other) && other != id
    {
      HasIdFilter(db.rows, id, other);
    }
  }

  // ---- links and rebuilds ----

  lemma {:induction false} LinksToLive(index: map<string, Row>, rows: seq<Row>, r: Row, wiki: seq<string>)
    requires r in rows && forall k :: k in index ==> index[k] in rows
    ensures forall l :: l in LinksTo(index, r, wiki) ==> HasId(rows, l.0) && HasId(rows, l.1)
    ensures forall l :: l in LinksTo(index, r, wiki) ==> (l.1, l.0) in LinksTo(index, r, wiki)
  {
    if wiki != [] {
      LinksToLive(index, rows, r, wiki[..|wiki| - 1]);
      var i :| 0 <= i < |rows| && rows[i] == r;
      var w := Lower(wiki[|wiki| - 1]);
      if w in index {
        assert index[w] in rows;
        var j :| 0 <= j < |rows| && rows[j] == index[w];
      }
    }
  }

  lemma {:induction false} TitleIndexListed(x: Extractors, listing: seq<Row>)
    ensures forall k :: k in TitleIndex(x, listing) ==> TitleIndex(x, listing)[k] in listing
  {
    if listing != [] {
      TitleIndexListed(x, listing[..|listing| - 1]);
      assert listing == listing[..|listing| - 1] + [listing[|listing| - 1]];
    }
  }

  lemma {:induction false} ResolvedFromKeeps(x: Extractors, index: map<string, Row>, rows: seq<Row>,
                                             listing: seq<Row>, links: set<(Id, Id)>)
    requires forall r :: r in listing ==> r in rows
    requires forall k :: k in index ==> index[k] in rows
    requires forall l :: l in links ==> HasId(rows, l.0)
    ensures links <= ResolvedFrom(x, index, listing, links).0
    ensures forall l :: l in ResolvedFrom(x, index, listing, links).0 ==> HasId(rows, l.0)
    ensures forall l :: l in ResolvedFrom(x, index, listing, links).0 && l !in links ==>
      HasId(rows, l.1) && (l.1, l.0) in ResolvedFrom(x, index, listing, links).0
  {
    if listing != [] {
      var before, last := listing[..|listing| - 1], listing[|listing| - 1];
      assert listing == before + [last];
      ResolvedFromKeeps(x, index, rows, before, links);
      LinksToLive(index, rows, last, x.wikiLinks(last.content));
    }
  }

  lemma ResolveKeeps(x: Extractors, db: Db)
    requires Consistent(db)
    ensures Consistent(Resolved(x, db).0)
    ensures db.links <= Resolved(x, db).0.links
    ensures forall l :: l in Resolved(x, db).0.links && l !in db.links ==>
      HasId(db.rows, l.1) && (l.1, l.0) in Resolved(x, db).0.links
  {
    var listing := Listing(db.rows);
    TitleIndexListed(x, listing);
    ResolvedFromKeeps(x, TitleIndex(x, listing), db.rows, listing, db.links);
  }

  lemma LinkKeeps(db: Db, a: string, b: string)
    requires Consistent(db)
    ensures Consistent(Linked(db, a, b)) && Consistent(Unlinked(db, a, b))
  {
  }

  lemma ReindexKeeps(x: Extractors, db: Db)
    requires Consistent(db)
    ensures Consistent(Reindexed(x, db).0)
  {
    ResolveKeeps(x, db.(fts := FtsOf(db.rows), links := {}));
    forall t | t in KeywordTags(x, db.rows)
      ensures HasId(db.rows, t.0)
    {
      var r :| r in db.rows && t.1 in x.keywords(r.content) && r.id == t.0;
      var i :| 0 <= i < |db.rows| && db.rows[i] == r;
    }
  }

  lemma {:induction false} ReplayKeeps(x: Extractors, db: Db, log: seq<Event>, envs: seq<Env>)
    requires Consistent(db) && |log| == |envs|
    ensures Consistent(Replayed(x, db, log, envs).0)
    ensures Grows(db.events, Replayed(x, db, log, envs).0.events)
  {
    GrowsReflexive(db.events);
    if log != [] {
      var n := |log| - 1;
      ReplayKeeps(x, db, log[..n], envs[..n]);
      var before := Replayed(x, db, log[..n], envs[..n]).0;
      IngestKeeps(x, before, ReplayRequest(log[n]), envs[n]);
      GrowsTransitive(db.events, before.events, Ingested(x, before, ReplayRequest(log[n]), envs[n]).0.events);
    }
  }

  lemma RebuildKeeps(x: Extractors, db: Db, envs: seq<Env>)
    requires Consistent(db) && |db.events| == |envs| && db.events != []
    ensures Consistent(Rebuilt(x, db, envs).value.0)
    ensures Grows(db.events, Rebuilt(x, db, envs).value.0.events)
  {
    ReplayKeeps(x, Wiped(db), db.events, envs);
    ResolveKeeps(x, Replayed(x, Wiped(db), db.events, envs).0);
  }

  // ---- whole runs ----

  lemma StepKeeps(x: Extractors, db: Db, c: Command)
    requires Consistent(db)
    ensures Consistent(Step(x, db, c))
    ensures Grows(db.events, Step(x, db, c).events)
  {
    hide Consistent, Grows, Ingested;
    GrowsReflexive(db.events);
    match c
    case DoIngest(req, env) => IngestKeeps(x, db, req, env);
    case DoDelete(id) =>
      if ResolveId(db.rows, id).Found? {
        RemoveKeeps(db, ResolveId(db.rows, id).id);
      }
    case DoMark(id, consumer) => UpdateKeeps(db, MarkRows(db.rows, id, consumer));
    case DoLink(a, b) => LinkKeeps(db, a, b);
    case DoUnlink(a, b) => LinkKeeps(db, a, b);
    case DoResolve => ResolveKeeps(x, db);
    case DoReindex => ReindexKeeps(x, db);
    case DoReplay(envs) =>
      if db.events != [] {
        RebuildKeeps(x, db, Envs(envs, |db.events|));
      }
  }

  /** Every state reached from a consistent one is consistent, and its log extends the old one. */
  lemma {:induction false} RunKeeps(x: Extractors, db: Db, cmds: seq<Command>)
    requires Consistent(db)
    ensures Consistent(Run(x, db, cmds))
    ensures Grows(db.events, Run(x, db, cmds).events)
  {
    hide Step, Consistent, Grows;
    GrowsReflexive(db.events);
    if cmds != [] {
      var before := Run(x, db, cmds[..|cmds| - 1]);
      RunKeeps(x, db, cmds[..|cmds| - 1]);
      StepKeeps(x, before, cmds[|cmds| - 1]);
      GrowsTransitive(db.events, before.events, Run(x, db, cmds).events);
    }
  }

  /** Every reachable state is consistent. */
  lemma ReachableKeeps(x: Extractors, cmds: seq<Command>)
    ensures Consistent(Run(x, EMPTY_DB, cmds))
  {
    hide Run;
    assert Consistent(EMPTY_DB);
    RunKeeps(x, EMPTY_DB, cmds);
  }
}
