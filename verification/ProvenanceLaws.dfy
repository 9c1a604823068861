/** Where rows and events come from: rows carry their event's text, and provenance is the
    field-wise first non-empty value over everything that delivered the content. */
module ProvenanceLaws {
  import opened Lists
  import opened Text
  import opened Tables
  import opened Runs

  /** What every caller does: no hash, or the hash of the content before or after trimming. */
  predicate SoundRequest(req: Request) {
    req.hash.Some? ==> Trim(req.hash.value.of) == Trim(req.content)
  }

  /** The stricter callers: no hash, or the hash of the trimmed content. */
  predicate CanonicalRequest(req: Request) {
    req.hash.Some? ==> req.hash.value == HashContent(Trim(req.content))
  }

  predicate Sound(c: Command) { c.DoIngest? ==> SoundRequest(c.req) }

  predicate Canonical(c: Command) { c.DoIngest? ==> CanonicalRequest(c.req) }

  lemma CanonicalIsSound(c: Command)
    ensures Canonical(c) ==> Sound(c)
  {
  }

  /** Content that the command gate lets through unchanged. */
  predicate GateClean(content: string) {
    Trimmed(content) && content != "" && ByteLen(content) <= MAX_CONTENT_LEN
  }

  ghost predicate SourcedEvents(events: seq<Event>) {
    forall i :: 0 <= i < |events| ==> GateClean(events[i].content) && events[i].content == Trim(events[i].id.of)
  }

  ghost predicate SourcedRows(rows: seq<Row>) {
    forall i :: 0 <= i < |rows| ==> rows[i].content == Trim(rows[i].hash.of)
  }

  ghost predicate CanonicalLog(events: seq<Event>) {
    forall i :: 0 <= i < |events| ==> events[i].id == HashContent(events[i].content)
  }

  lemma GatedContent(req: Request, env: Env)
    requires Gate(req, env).Ok? && SoundRequest(req)
    ensures var m := Gate(req, env).value; GateClean(m.content) && m.content == Trim(m.hash.of)
    ensures var m := Gate(req, env).value; CanonicalRequest(req) ==> m.hash == HashContent(m.content)
  {
  }

  lemma LogAfterAt(events: seq<Event>, m: Memory, now: int)
    ensures var after := LogAfter(events, m, now);
      forall i :: 0 <= i < |after| ==>
        (i < |events| && SameEvent(after[i], events[i])) || SameEvent(after[i], EventOf(m, now))
  {
  }

  lemma LogSourced(events: seq<Event>, m: Memory, now: int)
    requires SourcedEvents(events) && GateClean(m.content) && m.content == Trim(m.hash.of)
    ensures SourcedEvents(LogAfter(events, m, now))
    ensures CanonicalLog(events) && m.hash == HashContent(m.content) ==> CanonicalLog(LogAfter(events, m, now))
  {
    LogAfterAt(events, m, now);
  }

  lemma InsertedSourced(x: Extractors, db: Db, m: Memory, now: int)
    requires SourcedRows(db.rows) && m.content == Trim(m.hash.of) && Inserted(x, db, m, now).Some?
    ensures Inserted(x, db, m, now).value.0.events == LogAfter(db.events, m, now)
    ensures SourcedRows(Inserted(x, db, m, now).value.0.rows)
  {
  }

  lemma StoreSourced(x: Extractors, db: Db, m: Memory, now: int)
    requires SourcedEvents(db.events) && SourcedRows(db.rows)
    requires GateClean(m.content) && m.content == Trim(m.hash.of)
    ensures SourcedEvents(Stored(x, db, m, now).0.events) && SourcedRows(Stored(x, db, m, now).0.rows)
    ensures CanonicalLog(db.events) && m.hash == HashContent(m.content)
      ==> CanonicalLog(Stored(x, db, m, now).0.events)
  {
    if Inserted(x, db, m, now).Some? {
      LogSourced(db.events, m, now);
      InsertedSourced(x, db, m, now);
    }
  }

  lemma {:induction false} ReplaySourced(x: Extractors, db: Db, log: seq<Event>, envs: seq<Env>)
    requires SourcedEvents(db.events) && SourcedRows(db.rows) && SourcedEvents(log)
    requires |log| == |envs|
    ensures var after := Replayed(x, db, log, envs).0; SourcedEvents(after.events) && SourcedRows(after.rows)
    ensures CanonicalLog(db.events) ==> CanonicalLog(Replayed(x, db, log, envs).0.events)
  {
    if log != [] {
      var n := |log| - 1;
      ReplaySourced(x, db, log[..n], envs[..n]);
      var before := Replayed(x, db, log[..n], envs[..n]).0;
      var gated := Gate(ReplayRequest(log[n]), envs[n]);
      assert GateClean(log[n].content);
      GatedContent(ReplayRequest(log[n]), envs[n]);
      StoreSourced(x, before, gated.value, envs[n].now);
    }
  }

  lemma StepSourced(x: Extractors, db: Db, c: Command)
    requires SourcedEvents(db.events) && SourcedRows(db.rows) && Sound(c)
    ensures SourcedEvents(Step(x, db, c).events) && SourcedRows(Step(x, db, c).rows)
    ensures CanonicalLog(db.events) && Canonical(c) ==> CanonicalLog(Step(x, db, c).events)
  {
    match c
    case DoIngest(req, env) =>
      if Gate(req, env).Ok? {
        GatedContent(req, env);
        StoreSourced(x, db, Gate(req, env).value, env.now);
      }
    case DoDelete(id) =>
      var r := ResolveId(db.rows, id);
      if r.Found? {
        var kept := Filter(db.rows, NotId(r.id));
        forall i | 0 <= i < |kept|
          ensures kept[i].content == Trim(kept[i].hash.of)
        {
          assert kept[i] in kept;
        }
      }
    case DoReplay(envs) =>
      if db.events != [] {
        ReplaySourced(x, Wiped(db), db.events, Envs(envs, |db.events|));
      }
    case _ =>
  }

  lemma {:induction false} RunSourced(x: Extractors, cmds: seq<Command>)
    requires forall c :: c in cmds ==> Sound(c)
    ensures SourcedEvents(Run(x, EMPTY_DB, cmds).events) && SourcedRows(Run(x, EMPTY_DB, cmds).rows)
    ensures (forall c :: c in cmds ==> Canonical(c)) ==> CanonicalLog(Run(x, EMPTY_DB, cmds).events)
  {
    hide Step;
    if cmds != [] {
      var before, last := cmds[..|cmds| - 1], cmds[|cmds| - 1];
      RunSourced(x, before);
      StepSourced(x, Run(x, EMPTY_DB, before), last);
    }
  }

  lemma RowTraces(db: Db, r: Row)
    requires Consistent(db) && SourcedEvents(db.events) && SourcedRows(db.rows) && r in db.rows
    ensures exists e :: e in db.events && e.id == r.rawEntry && e.content == r.content
    ensures CanonicalLog(db.events) ==> r.hash == HashContent(r.content)
  {
    var i :| 0 <= i < |db.rows| && db.rows[i] == r;
    var j :| 0 <= j < |db.events| && db.events[j].id == r.rawEntry;
    assert db.events[j] in db.events;
  }

  /** Over every run, each live row names an event that exists and carries the same text. */
  lemma RowsTraceToEvents(x: Extractors, cmds: seq<Command>, r: Row)
    requires forall c :: c in cmds ==> Sound(c)
    requires r in Run(x, EMPTY_DB, cmds).rows
    ensures exists e :: e in Run(x, EMPTY_DB, cmds).events && e.id == r.rawEntry && e.content == r.content
  {
    hide Step, Consistent;
    ReachableKeeps(x, cmds);
    RunSourced(x, cmds);
    RowTraces(Run(x, EMPTY_DB, cmds), r);
  }

  // ---- first non-empty provenance ----

  datatype Delivery = Delivery(hash: Digest, prov: Provenance)

  /** The ingests of a run that committed, in order. */
  function Deliveries(x: Extractors, db: Db, cmds: seq<Command>): seq<Delivery> {
    if cmds == [] then []
    else
      var before, last := cmds[..|cmds| - 1], cmds[|cmds| - 1];
      Deliveries(x, db, before) + DeliveryOf(x, Run(x, db, before), last)
  }

  function DeliveryOf(x: Extractors, db: Db, c: Command): seq<Delivery> {
    if c.DoIngest? && Ingested(x, db, c.req, c.env).1.Ok?
    then [Delivery(Gate(c.req, c.env).value.hash, c.req.prov)]
    else []
  }

  /** Field by field, the first non-empty value among the deliveries of one content. */
  function FirstDelivered(ds: seq<Delivery>, hash: Digest): Provenance {
    if ds == [] then NO_PROVENANCE
    else
      var before, d := FirstDelivered(ds[..|ds| - 1], hash), ds[|ds| - 1];
      if d.hash == hash then Backfill(before, d.prov) else before
  }

  ghost predicate Delivered(ds: seq<Delivery>, hash: Digest) {
    exists i :: 0 <= i < |ds| && ds[i].hash == hash
  }

  lemma {:induction false} NeverDelivered(ds: seq<Delivery>, hash: Digest)
    requires !Delivered(ds, hash)
    ensures FirstDelivered(ds, hash) == NO_PROVENANCE
  {
    if ds != [] {
      assert ds[|ds| - 1].hash != hash;
      NeverDelivered(ds[..|ds| - 1], hash);
    }
  }

  lemma DeliverOne(ds: seq<Delivery>, d: Delivery, hash: Digest)
    ensures FirstDelivered(ds + [d], hash)
         == if d.hash == hash then Backfill(FirstDelivered(ds, hash), d.prov) else FirstDelivered(ds, hash)
    ensures Delivered(ds + [d], hash) <==> Delivered(ds, hash) || d.hash == hash
  {
    assert (ds + [d])[..|ds|] == ds;
    if Delivered(ds, hash) {
      var i :| 0 <= i < |ds| && ds[i].hash == hash;
      assert (ds + [d])[i].hash == hash;
    }
    if d.hash == hash {
      assert (ds + [d])[|ds|].hash == hash;
    }
  }

  ghost predicate EventsMerge(events: seq<Event>, ds: seq<Delivery>) {
    && (forall i :: 0 <= i < |events| ==> events[i].prov == FirstDelivered(ds, events[i].id))
    && (forall hash :: Delivered(ds, hash) ==> HasEvent(events, hash))
  }

  ghost predicate RowsMerge(rows: seq<Row>, ds: seq<Delivery>) {
    && (forall i :: 0 <= i < |rows| ==> rows[i].prov == FirstDelivered(ds, rows[i].hash))
    && (forall hash :: Delivered(ds, hash) ==> FindByHash(rows, hash).Some?)
  }

  lemma EventsMergeStep(events: seq<Event>, m: Memory, now: int, ds: seq<Delivery>)
    requires DistinctEvents(events) && EventsMerge(events, ds)
    ensures EventsMerge(LogAfter(events, m, now), ds + [Delivery(m.hash, m.prov)])
  {
    var d := Delivery(m.hash, m.prov);
    var after := LogAfter(events, m, now);
    LogGrows(events, m, now);
    forall hash: Digest { DeliverOne(ds, d, hash); }
    BackfillLaws(m.prov, m.prov, m.prov);
    if !HasEvent(events, m.hash) {
      NeverDelivered(ds, m.hash);
      assert forall i :: 0 <= i < |events| ==> events[i].id != m.hash;
    }
    forall i | 0 <= i < |after|
      ensures after[i].prov == FirstDelivered(ds + [d], after[i].id)
    {
      if i < |events| {
        assert events[i].prov == FirstDelivered(ds, events[i].id);
      }
    }
  }

  lemma EventsStep(x: Extractors, db: Db, c: Command, ds: seq<Delivery>)
    requires DistinctEvents(db.events) && EventsMerge(db.events, ds) && !c.DoReplay?
    ensures EventsMerge(Step(x, db, c).events, ds + DeliveryOf(x, db, c))
  {
    if c.DoIngest? && Ingested(x, db, c.req, c.env).1.Ok? {
      EventsMergeStep(db.events, Gate(c.req, c.env).value, c.env.now, ds);
    } else {
      assert ds + [] == ds;
    }
  }

  /** The log's half, for runs without replay: every event carries, field by field, the first
      non-empty value that any committed ingest of its content delivered; deletes do not matter. */
  lemma {:induction false} EventProvenance(x: Extractors, cmds: seq<Command>)
    requires forall c :: c in cmds ==> !c.DoReplay?
    ensures EventsMerge(Run(x, EMPTY_DB, cmds).events, Deliveries(x, EMPTY_DB, cmds))
  {
    hide Step, DeliveryOf, FirstDelivered;
    if cmds != [] {
      var before, last := cmds[..|cmds| - 1], cmds[|cmds| - 1];
      EventProvenance(x, before);
      ReachableKeeps(x, before);
      EventsStep(x, Run(x, EMPTY_DB, before), last, Deliveries(x, EMPTY_DB, before));
    }
  }

  lemma NewRowMerges(rows: seq<Row>, row: Row, ds: seq<Delivery>)
    requires RowsMerge(rows, ds) && FindByHash(rows, row.hash).None?
    ensures RowsMerge(rows + [row], ds + [Delivery(row.hash, row.prov)])
  {
    var d := Delivery(row.hash, row.prov);
    forall hash: Digest { DeliverOne(ds, d, hash); }
    NeverDelivered(ds, row.hash);
    BackfillLaws(row.prov, row.prov, row.prov);
    assert (rows + [row])[|rows|].hash == row.hash;
    FoundAfter(rows, rows + [row], row.hash);
  }

  lemma BackfilledRowMerges(rows: seq<Row>, id: Id, d: Delivery, ds: seq<Delivery>)
    requires DistinctRows(rows) && RowsMerge(rows, ds) && FindByHash(rows, d.hash) == Some(id)
    ensures RowsMerge(BackfillRows(rows, id, d.prov), ds + [d])
  {
    var k :| 0 <= k < |rows| && rows[k].hash == d.hash && rows[k].id == id;
    var after := BackfillRows(rows, id, d.prov);
    forall i | 0 <= i < |after|
      ensures after[i].hash == rows[i].hash && after[i].prov == FirstDelivered(ds + [d], after[i].hash)
    {
      DeliverOne(ds, d, rows[i].hash);
      assert i == k || (rows[i].id != rows[k].id && rows[i].hash != rows[k].hash);
    }
    assert after[k].hash == d.hash;
    FoundAfter(rows, after, d.hash);
    forall hash | Delivered(ds + [d], hash)
      ensures FindByHash(after, hash).Some?
    {
      DeliverOne(ds, d, hash);
    }
  }

  lemma InsertRowsMerge(x: Extractors, db: Db, m: Memory, now: int, ds: seq<Delivery>)
    requires DistinctRows(db.rows) && RowsMerge(db.rows, ds) && Inserted(x, db, m, now).Some?
    ensures RowsMerge(Inserted(x, db, m, now).value.0.rows, ds + [Delivery(m.hash, m.prov)])
  {
    if FindByHash(db.rows, m.hash).None? {
      NewRowMerges(db.rows, RowOf(x, m), ds);
    } else {
      BackfilledRowMerges(db.rows, FindByHash(db.rows, m.hash).value, Delivery(m.hash, m.prov), ds);
    }
  }

  /** Rows that keep, or add to, the hashes keep every lookup that succeeded. */
  lemma FoundAfter(before: seq<Row>, after: seq<Row>, added: Digest)
    requires |before| <= |after| && forall i :: 0 <= i < |before| ==> after[i].hash == before[i].hash
    requires exists i :: 0 <= i < |after| && after[i].hash == added
    ensures forall h :: FindByHash(before, h).Some? || h == added ==> FindByHash(after, h).Some?
  {
    forall h | FindByHash(before, h).Some? && h != added
      ensures FindByHash(after, h).Some?
    {
      var i :| 0 <= i < |before| && before[i].hash == h;
      assert after[i].hash == h;
    }
  }

  lemma SameProvenance(rows: seq<Row>, after: seq<Row>, ds: seq<Delivery>)
    requires RowsMerge(rows, ds) && |rows| == |after|
    requires forall i :: 0 <= i < |rows| ==> after[i].hash == rows[i].hash && after[i].prov == rows[i].prov
    ensures RowsMerge(after, ds)
  {
    if rows != [] {
      assert after[0].hash == rows[0].hash;
      FoundAfter(rows, after, rows[0].hash);
    }
  }

  lemma RowsStep(x: Extractors, db: Db, c: Command, ds: seq<Delivery>)
    requires DistinctRows(db.rows) && RowsMerge(db.rows, ds) && !c.DoReplay? && !c.DoDelete?
    ensures RowsMerge(Step(x, db, c).rows, ds + DeliveryOf(x, db, c))
  {
    if c.DoIngest? && Ingested(x, db, c.req, c.env).1.Ok? {
      var m := Gate(c.req, c.env).value;
      InsertRowsMerge(x, db, m, c.env.now, ds);
      var inserted := Inserted(x, db, m, c.env.now).value.0.rows;
      SameProvenance(inserted, Step(x, db, c).rows, ds + [Delivery(m.hash, m.prov)]);
    } else {
      assert ds + [] == ds;
      SameProvenance(db.rows, Step(x, db, c).rows, ds);
    }
  }

  /** The rows' half needs more: without deletes and replays, every live row carries the same
      first non-empty values as its event. */
  lemma {:induction false} RowProvenance(x: Extractors, cmds: seq<Command>)
    requires forall c :: c in cmds ==> !c.DoReplay? && !c.DoDelete?
    ensures RowsMerge(Run(x, EMPTY_DB, cmds).rows, Deliveries(x, EMPTY_DB, cmds))
  {
    hide Step, DeliveryOf, FirstDelivered;
    if cmds != [] {
      var before, last := cmds[..|cmds| - 1], cmds[|cmds| - 1];
      RowProvenance(x, before);
      ReachableKeeps(x, before);
      RowsStep(x, Run(x, EMPTY_DB, before), last, Deliveries(x, EMPTY_DB, before));
    }
  }

  lemma SameMerge(db: Db, ds: seq<Delivery>, r: Row, e: Event)
    requires Consistent(db) && EventsMerge(db.events, ds) && RowsMerge(db.rows, ds)
    requires r in db.rows && e in db.events && e.id == r.rawEntry
    ensures r.prov == e.prov
  {
    var i :| 0 <= i < |db.rows| && db.rows[i] == r;
    var j :| 0 <= j < |db.events| && db.events[j] == e;
  }
}
