/** When a live row and its event carry the same provenance, and exactly which write parts them. */
module Agreement {
  import opened Tables
  import opened Runs
  import opened ProvenanceLaws
  import opened Replay
  import opened WriteLaws
  import opened Duplicates

  /** Every live row carries its event's provenance. */
  ghost predicate Agree(db: Db) {
    forall i, j :: 0 <= i < |db.rows| && 0 <= j < |db.events| && db.events[j].id == db.rows[i].rawEntry ==>
      db.rows[i].prov == db.events[j].prov
  }

  /** The caller delivers everything the log already knows about this content. */
  ghost predicate KnowsAll(events: seq<Event>, m: Memory) {
    forall j :: 0 <= j < |events| && events[j].id == m.hash ==> Enriches(events[j].prov, m.prov)
  }

  lemma InsertedProvenance(x: Extractors, db: Db, m: Memory, now: int)
    requires Consistent(db) && Inserted(x, db, m, now).Some?
    ensures var (after, known) := (Inserted(x, db, m, now).value.0, FindByHash(db.rows, m.hash).Some?);
      && after.events == LogAfter(db.events, m, now)
      && |after.rows| == |db.rows| + (if known then 0 else 1)
      && (forall i :: 0 <= i < |db.rows| ==> after.rows[i].rawEntry == db.rows[i].rawEntry)
      && (forall i :: 0 <= i < |db.rows| ==>
            after.rows[i].prov
            == if db.rows[i].hash == m.hash then Backfill(db.rows[i].prov, m.prov) else db.rows[i].prov)
      && (!known ==> after.rows[|db.rows|].rawEntry == m.hash && after.rows[|db.rows|].prov == m.prov)
  {
    RowsDistinct(db);
    hide MergedTags, BackfillEvents, AppendEvent, Backfill, BackfillRows, Consistent, DistinctRows;
    if FindByHash(db.rows, m.hash).Some? {
      BackfilledAt(db.rows, m.hash, FindByHash(db.rows, m.hash).value, m.prov);
    }
  }

  lemma StoredProvenance(x: Extractors, db: Db, m: Memory, now: int)
    requires Consistent(db) && Stored(x, db, m, now).1.Ok?
    ensures var (after, known) := (Stored(x, db, m, now).0, FindByHash(db.rows, m.hash).Some?);
      && after.events == LogAfter(db.events, m, now)
      && |after.rows| == |db.rows| + (if known then 0 else 1)
      && (forall i :: 0 <= i < |db.rows| ==> after.rows[i].rawEntry == db.rows[i].rawEntry)
      && (forall i :: 0 <= i < |db.rows| ==>
            after.rows[i].prov
            == if db.rows[i].hash == m.hash then Backfill(db.rows[i].prov, m.prov) else db.rows[i].prov)
      && (!known ==> after.rows[|db.rows|].rawEntry == m.hash && after.rows[|db.rows|].prov == m.prov)
  {
    hide Inserted, Overtaken, Backfill, LogAfter, Consistent, FindByHash;
    InsertedProvenance(x, db, m, now);
  }

  lemma LogProvenance(events: seq<Event>, m: Memory, now: int)
    ensures var after := LogAfter(events, m, now);
      && |events| <= |after| <= |events| + 1
      && (forall j :: 0 <= j < |events| ==> after[j].id == events[j].id)
      && (forall j :: 0 <= j < |events| ==>
            after[j].prov == if events[j].id == m.hash then Backfill(events[j].prov, m.prov) else events[j].prov)
      && (|after| > |events| ==> after[|events|].id == m.hash && after[|events|].prov == m.prov)
      && HasEvent(after, m.hash)
      && (|after| > |events| <==> !HasEvent(events, m.hash))
  {
    BackfillLaws(m.prov, m.prov, m.prov);
    if HasEvent(events, m.hash) {
      var j :| 0 <= j < |events| && events[j].id == m.hash;
      assert LogAfter(events, m, now)[j].id == m.hash;
    } else {
      assert LogAfter(events, m, now)[|events|].id == m.hash;
    }
  }

  /** A committed write keeps rows and events agreeing exactly when its content has a live row, or
      it delivers everything the log knows about the content. */
  lemma StoredAgreesIff(x: Extractors, db: Db, m: Memory, now: int)
    requires Consistent(db) && Agree(db) && Stored(x, db, m, now).1.Ok?
    ensures Agree(Stored(x, db, m, now).0) <==> FindByHash(db.rows, m.hash).Some? || KnowsAll(db.events, m)
  {
    hide Stored, Backfill, LogAfter, FindByHash, KnowsAll;
    StoredProvenance(x, db, m, now);
    LogProvenance(db.events, m, now);
    var after := Stored(x, db, m, now).0;
    forall i, j | 0 <= i < |db.rows| && 0 <= j < |after.events| && after.events[j].id == after.rows[i].rawEntry
      ensures after.rows[i].prov == after.events[j].prov
    {
      OldRowAgrees(db, after, m, i, j);
    }
    NewRowAgreesIff(db.events, after.events, m);
    hide Consistent;
    if FindByHash(db.rows, m.hash).None? && Agree(after) {
      forall j | 0 <= j < |after.events| && after.events[j].id == m.hash
        ensures after.events[j].prov == m.prov
      {
        assert after.rows[|db.rows|].rawEntry == after.events[j].id;
      }
    }
  }

  lemma NewRowAgreesIff(events: seq<Event>, after: seq<Event>, m: Memory)
    requires |events| <= |after| <= |events| + 1
    requires forall j :: 0 <= j < |events| ==> after[j].id == events[j].id
    requires forall j :: 0 <= j < |events| ==>
      after[j].prov == if events[j].id == m.hash then Backfill(events[j].prov, m.prov) else events[j].prov
    requires |after| > |events| ==> after[|events|].prov == m.prov
    ensures (forall j :: 0 <= j < |after| && after[j].id == m.hash ==> after[j].prov == m.prov) <==> KnowsAll(events, m)
  {
    hide Backfill;
    if forall j :: 0 <= j < |after| && after[j].id == m.hash ==> after[j].prov == m.prov {
      forall j | 0 <= j < |events| && events[j].id == m.hash
        ensures Enriches(events[j].prov, m.prov)
      {
        assert after[j].id == m.hash;
      }
    }
  }

  lemma OldRowAgrees(db: Db, after: Db, m: Memory, i: nat, j: nat)
    requires Consistent(db) && Agree(db) && i < |db.rows| <= |after.rows| && j < |after.events|
    requires |db.events| <= |after.events| <= |db.events| + 1
    requires forall k :: 0 <= k < |db.events| ==> after.events[k].id == db.events[k].id
    requires forall k :: 0 <= k < |db.events| ==>
      after.events[k].prov
      == if db.events[k].id == m.hash then Backfill(db.events[k].prov, m.prov) else db.events[k].prov
    requires |after.events| > |db.events| ==> after.events[|db.events|].id == m.hash && !HasEvent(db.events, m.hash)
    requires after.rows[i].rawEntry == db.rows[i].rawEntry == after.events[j].id
    requires after.rows[i].prov
          == if db.rows[i].hash == m.hash then Backfill(db.rows[i].prov, m.prov) else db.rows[i].prov
    ensures after.rows[i].prov == after.events[j].prov
  {
    hide Backfill;
    assert db.rows[i].rawEntry == db.rows[i].hash && HasEvent(db.events, db.rows[i].rawEntry);
    if j < |db.events| {
      assert db.rows[i].prov == db.events[j].prov;
    }
  }

  /** Deleting, marking and linking part no row from its event. */
  lemma DeleteAgrees(db: Db, id: string)
    requires Consistent(db) && Agree(db)
    ensures Agree(Deleted(db, id).0)
  {
    hide Deleted, Consistent;
    DeleteRemovesOne(db, id);
    var after := Deleted(db, id).0;
    forall i, j | 0 <= i < |after.rows| && 0 <= j < |after.events| && after.events[j].id == after.rows[i].rawEntry
      ensures after.rows[i].prov == after.events[j].prov
    {
      assert after.rows[i] in db.rows;
      var k :| 0 <= k < |db.rows| && db.rows[k] == after.rows[i];
      assert db.rows[k].rawEntry == db.events[j].id;
    }
  }

  lemma MarkAgrees(db: Db, id: string, c: Consumers.Consumer)
    requires Agree(db)
    ensures Agree(db.(rows := MarkRows(db.rows, id, c)))
  {
    var rows := MarkRows(db.rows, id, c);
    forall i | 0 <= i < |rows|
      ensures rows[i].rawEntry == db.rows[i].rawEntry && rows[i].prov == db.rows[i].prov
    {
    }
  }

  /** A full rebuild of a canonical log makes every row agree with its event again, whatever the
      rows were before and whatever ids are generated. */
  lemma {:induction false} ReplayAgrees(x: Extractors, db: Db, log: seq<Event>, envs: seq<Env>, n: nat)
    requires Consistent(db) && db.rows == [] && log == db.events && n <= |log| == |envs|
    requires SourcedEvents(log) && CanonicalLog(log)
    ensures Agree(Prefix(x, db, log, envs, n).0)
    decreases n
  {
    hide Prefix, Stored, Consistent, Grows, Absorbed, Agree, ReplayMemory, GateClean, KnowsAll, SourcedEvents;
    if n == 0 {
      StartAgrees(x, db, log, envs);
    } else {
      ReplayAgrees(x, db, log, envs, n - 1);
      CleanAt(log, n - 1);
      PrefixNext(x, db, log, envs, n - 1);
      PrefixKeeps(x, db, log, envs, n - 1);
      EventsDistinct(db);
      CanonicalAbsorbs(x, log);
      ReplayFixes(x, db, log, envs, n - 1);
      var before, m := Prefix(x, db, log, envs, n - 1).0, ReplayMemory(log[n - 1], envs[n - 1]);
      ReplayKnowsAll(log, n - 1, envs[n - 1]);
      if Stored(x, before, m, envs[n - 1].now).1.Ok? {
        StoredAgreesIff(x, before, m, envs[n - 1].now);
      } else {
        StoreFailed(x, before, m, envs[n - 1].now);
      }
    }
  }

  lemma StartAgrees(x: Extractors, db: Db, log: seq<Event>, envs: seq<Env>)
    requires db.rows == [] && |log| == |envs|
    ensures Agree(Prefix(x, db, log, envs, 0).0)
  {
  }

  lemma CleanAt(log: seq<Event>, n: nat)
    requires SourcedEvents(log) && n < |log|
    ensures GateClean(log[n].content)
  {
  }

  lemma EventsDistinct(db: Db)
    requires Consistent(db)
    ensures DistinctEvents(db.events)
  {
  }

  lemma StoreFailed(x: Extractors, db: Db, m: Memory, now: int)
    requires Stored(x, db, m, now).1.Err?
    ensures Stored(x, db, m, now).0 == db
  {
  }

  lemma ReplayKnowsAll(log: seq<Event>, n: nat, env: Env)
    requires n < |log| && CanonicalLog(log) && DistinctEvents(log)
    ensures KnowsAll(log, ReplayMemory(log[n], env))
  {
    forall j | 0 <= j < |log| && log[j].id == HashContent(log[n].content)
      ensures Enriches(log[j].prov, log[n].prov)
    {
      assert j == n;
      BackfillLaws(log[n].prov, NO_PROVENANCE, NO_PROVENANCE);
    }
  }

  lemma RebuildAgrees(x: Extractors, db: Db, envs: seq<Env>)
    requires Consistent(db) && SourcedEvents(db.events) && CanonicalLog(db.events) && db.events != []
    requires |envs| == |db.events|
    ensures Agree(Rebuilt(x, db, envs).value.0)
  {
    hide Replayed, SourcedEvents, CanonicalLog;
    PrefixAll(x, Wiped(db), db.events, envs);
    ReplayAgrees(x, Wiped(db), db.events, envs, |envs|);
  }

  // ---- a rebuild of any log ----

  /** What replaying the log delivers: its events that are not noise, each under the hash of its text. */
  function ReplayDeliveries(x: Extractors, log: seq<Event>): seq<Delivery> {
    if log == [] then []
    else
      var before, e := ReplayDeliveries(x, log[..|log| - 1]), log[|log| - 1];
      if x.noise(e.content) then before else before + [Delivery(HashContent(e.content), e.prov)]
  }

  ghost predicate AllDelivered(rows: seq<Row>, ds: seq<Delivery>) {
    forall i :: 0 <= i < |rows| ==> Delivered(ds, rows[i].hash)
  }

  /** The old events enriched by the deliveries, then events that hold nothing but deliveries. */
  ghost predicate Enlarged(log: seq<Event>, after: seq<Event>, ds: seq<Delivery>) {
    && |log| <= |after|
    && (forall j :: 0 <= j < |log| ==> after[j].id == log[j].id)
    && (forall j :: 0 <= j < |log| ==> after[j].prov == Backfill(log[j].prov, FirstDelivered(ds, log[j].id)))
    && (forall j :: |log| <= j < |after| ==> after[j].prov == FirstDelivered(ds, after[j].id))
    && (forall hash :: Delivered(ds, hash) ==> HasEvent(after, hash))
  }

  lemma EnlargedStep(log: seq<Event>, events: seq<Event>, m: Memory, now: int, ds: seq<Delivery>)
    requires Enlarged(log, events, ds)
    ensures Enlarged(log, LogAfter(events, m, now), ds + [Delivery(m.hash, m.prov)])
  {
    hide LogAfter, Backfill, FirstDelivered;
    var d, after := Delivery(m.hash, m.prov), LogAfter(events, m, now);
    LogProvenance(events, m, now);
    forall hash: Digest { DeliverOne(ds, d, hash); }
    forall j | 0 <= j < |log|
      ensures after[j].prov == Backfill(log[j].prov, FirstDelivered(ds + [d], log[j].id))
    {
      BackfillLaws(log[j].prov, FirstDelivered(ds, log[j].id), m.prov);
    }
    if |after| > |events| {
      NeverDelivered(ds, m.hash);
      BackfillLaws(m.prov, NO_PROVENANCE, NO_PROVENANCE);
    }
    forall hash | Delivered(ds + [d], hash)
      ensures HasEvent(after, hash)
    {
      if hash != m.hash {
        assert HasEvent(events, hash);
        var j :| 0 <= j < |events| && events[j].id == hash;
        assert after[j].id == hash;
      }
    }
  }

  lemma StoredHashes(x: Extractors, db: Db, m: Memory, now: int)
    requires Stored(x, db, m, now).1.Ok?
    ensures var after := Stored(x, db, m, now).0.rows;
      forall i :: 0 <= i < |after| ==>
        after[i].hash == m.hash || (i < |db.rows| && after[i].hash == db.rows[i].hash)
  {
    hide MergedTags, Overtaken, BackfillEvents, AppendEvent;
  }

  lemma DeliveredStep(x: Extractors, db: Db, m: Memory, now: int, ds: seq<Delivery>)
    requires AllDelivered(db.rows, ds) && Stored(x, db, m, now).1.Ok?
    ensures AllDelivered(Stored(x, db, m, now).0.rows, ds + [Delivery(m.hash, m.prov)])
  {
    hide Stored, Delivered;
    StoredHashes(x, db, m, now);
    forall hash: Digest { DeliverOne(ds, Delivery(m.hash, m.prov), hash); }
  }

  lemma StoredRowsMerge(x: Extractors, db: Db, m: Memory, now: int, ds: seq<Delivery>)
    requires Consistent(db) && RowsMerge(db.rows, ds) && Stored(x, db, m, now).1.Ok?
    ensures RowsMerge(Stored(x, db, m, now).0.rows, ds + [Delivery(m.hash, m.prov)])
  {
    RowsDistinct(db);
    hide Inserted, Overtaken, RowsMerge, Consistent;
    InsertRowsMerge(x, db, m, now, ds);
    SameProvenance(Inserted(x, db, m, now).value.0.rows, Stored(x, db, m, now).0.rows, ds + [Delivery(m.hash, m.prov)]);
  }

  lemma ReplayDeliveriesNext(x: Extractors, log: seq<Event>, n: nat)
    requires n < |log|
    ensures ReplayDeliveries(x, log[..n + 1])
         == if x.noise(log[n].content) then ReplayDeliveries(x, log[..n])
            else ReplayDeliveries(x, log[..n]) + [Delivery(HashContent(log[n].content), log[n].prov)]
  {
    assert log[..n + 1][..n] == log[..n];
  }

  /** What a replay under fresh ids leaves: rows carry what was delivered, and so do the new events. */
  lemma {:induction false} ReplayForm(x: Extractors, db: Db, log: seq<Event>, envs: seq<Env>, n: nat)
    requires Consistent(db) && db.rows == [] && log == db.events && n <= |log| == |envs|
    requires SourcedEvents(log) && Fresh(envs)
    ensures var after, ds := Prefix(x, db, log, envs, n).0, ReplayDeliveries(x, log[..n]);
      RowsMerge(after.rows, ds) && AllDelivered(after.rows, ds) && Enlarged(log, after.events, ds)
    decreases n
  {
    hide Prefix, Stored, Consistent, Grows, ReplayMemory, GateClean, SourcedEvents, RowsMerge, AllDelivered, Enlarged,
         LogAfter, HasId, Fresh, ReplayDeliveries;
    if n == 0 {
      NothingReplayed(x, db, log, envs);
    } else {
      ReplayForm(x, db, log, envs, n - 1);
      CleanAt(log, n - 1);
      PrefixNext(x, db, log, envs, n - 1);
      ReplayDeliveriesNext(x, log, n - 1);
      if !x.noise(log[n - 1].content) {
        PrefixKeeps(x, db, log, envs, n - 1);
        ReplayCommits(x, db, log, envs, n - 1);
        OneReplayed(x, Prefix(x, db, log, envs, n - 1).0, log, log[n - 1], envs[n - 1],
                    ReplayDeliveries(x, log[..n - 1]));
      }
    }
  }

  lemma OneReplayed(x: Extractors, before: Db, log: seq<Event>, e: Event, env: Env, ds: seq<Delivery>)
    requires Consistent(before) && Stored(x, before, ReplayMemory(e, env), env.now).1.Ok?
    requires RowsMerge(before.rows, ds) && AllDelivered(before.rows, ds) && Enlarged(log, before.events, ds)
    ensures var after := Stored(x, before, ReplayMemory(e, env), env.now).0;
      var more := ds + [Delivery(HashContent(e.content), e.prov)];
      RowsMerge(after.rows, more) && AllDelivered(after.rows, more) && Enlarged(log, after.events, more)
  {
    hide Stored, Consistent, RowsMerge, AllDelivered, Enlarged, LogAfter;
    var m := ReplayMemory(e, env);
    StoredRowsMerge(x, before, m, env.now, ds);
    DeliveredStep(x, before, m, env.now, ds);
    EnlargedStep(log, before.events, m, env.now, ds);
    StoredEvents(x, before, m, env.now);
  }

  lemma NothingReplayed(x: Extractors, db: Db, log: seq<Event>, envs: seq<Env>)
    requires db.rows == [] && log == db.events && |log| == |envs|
    ensures var after, ds := Prefix(x, db, log, envs, 0).0, ReplayDeliveries(x, log[..0]);
      RowsMerge(after.rows, ds) && AllDelivered(after.rows, ds) && Enlarged(log, after.events, ds)
  {
    forall j | 0 <= j < |log|
      ensures Backfill(log[j].prov, NO_PROVENANCE) == log[j].prov
    {
      BackfillLaws(log[j].prov, NO_PROVENANCE, NO_PROVENANCE);
    }
  }

  /** For every event whose hash is delivered again, the first non-empty values over what the replay
      delivers give back all that the event knows. */
  ghost predicate Reconciled(log: seq<Event>, ds: seq<Delivery>) {
    forall j :: 0 <= j < |log| && Delivered(ds, log[j].id) ==> Enriches(log[j].prov, FirstDelivered(ds, log[j].id))
  }

  lemma EnlargedAgreesIff(after: Db, log: seq<Event>, ds: seq<Delivery>)
    requires Consistent(after) && RowsMerge(after.rows, ds) && AllDelivered(after.rows, ds)
    requires Enlarged(log, after.events, ds)
    ensures Agree(after) <==> Reconciled(log, ds)
  {
    hide Backfill, FirstDelivered, Delivered;
    if Agree(after) {
      forall j | 0 <= j < |log| && Delivered(ds, log[j].id)
        ensures Enriches(log[j].prov, FirstDelivered(ds, log[j].id))
      {
        assert FindByHash(after.rows, log[j].id).Some?;
        var i :| 0 <= i < |after.rows| && after.rows[i].hash == log[j].id;
        assert after.rows[i].rawEntry == after.events[j].id;
      }
    }
    if Reconciled(log, ds) {
      forall i, j | 0 <= i < |after.rows| && 0 <= j < |after.events| && after.events[j].id == after.rows[i].rawEntry
        ensures after.rows[i].prov == after.events[j].prov
      {
        assert Delivered(ds, after.rows[i].hash);
        assert after.rows[i].prov == FirstDelivered(ds, after.rows[i].hash);
      }
    }
  }

  /** After a full rebuild of any log, under fresh ids, rows and events agree exactly when the replay
      reconciles the log. */
  lemma RebuildAgreesIff(x: Extractors, db: Db, envs: seq<Env>)
    requires Consistent(db) && SourcedEvents(db.events) && db.events != []
    requires |envs| == |db.events| && Fresh(envs)
    ensures Agree(Rebuilt(x, db, envs).value.0) <==> Reconciled(db.events, ReplayDeliveries(x, db.events))
  {
    var log, n := db.events, |envs|;
    hide Replayed, SourcedEvents, RowsMerge, AllDelivered, Enlarged, Reconciled, ReplayDeliveries, Prefix, Fresh, Grows;
    PrefixAll(x, Wiped(db), log, envs);
    PrefixKeeps(x, Wiped(db), log, envs, n);
    ReplayForm(x, Wiped(db), log, envs, n);
    assert log[..n] == log;
    hide Consistent;
    EnlargedAgreesIff(Prefix(x, Wiped(db), log, envs, n).0, log, ReplayDeliveries(x, log));
  }

  lemma {:induction false} CanonicalDelivers(x: Extractors, log: seq<Event>, n: nat, j: nat)
    requires n <= |log| && j < |log| && CanonicalLog(log) && DistinctEvents(log)
    ensures var ds := ReplayDeliveries(x, log[..n]);
      && (Delivered(ds, log[j].id) <==> j < n && !x.noise(log[j].content))
      && FirstDelivered(ds, log[j].id) == if j < n && !x.noise(log[j].content) then log[j].prov else NO_PROVENANCE
  {
    hide FirstDelivered, Delivered;
    if n == 0 {
      NeverAnything(log[j].id);
    } else {
      CanonicalDelivers(x, log, n - 1, j);
      ReplayDeliveriesNext(x, log, n - 1);
      var d := Delivery(HashContent(log[n - 1].content), log[n - 1].prov);
      DeliverOne(ReplayDeliveries(x, log[..n - 1]), d, log[j].id);
      assert log[n - 1].id == HashContent(log[n - 1].content);
      BackfillLaws(log[j].prov, NO_PROVENANCE, NO_PROVENANCE);
      assert j != n - 1 ==> log[j].id != log[n - 1].id;
    }
  }

  lemma NeverAnything(hash: Digest)
    ensures !Delivered([], hash) && FirstDelivered([], hash) == NO_PROVENANCE
  {
  }

  /** A canonical log is always reconciled. */
  lemma CanonicalReconciled(x: Extractors, log: seq<Event>)
    requires CanonicalLog(log) && DistinctEvents(log)
    ensures Reconciled(log, ReplayDeliveries(x, log))
  {
    hide FirstDelivered, Delivered, CanonicalLog, DistinctEvents;
    assert log[..|log|] == log;
    forall j | 0 <= j < |log| && Delivered(ReplayDeliveries(x, log), log[j].id)
      ensures Enriches(log[j].prov, FirstDelivered(ReplayDeliveries(x, log), log[j].id))
    {
      CanonicalDelivers(x, log, |log|, j);
      BackfillLaws(log[j].prov, NO_PROVENANCE, NO_PROVENANCE);
    }
  }

  // ---- whole runs ----

  /** A write that commits either enriches a live row or delivers all the log knows, and a full
      rebuild reconciles its log. */
  ghost predicate Informed(x: Extractors, db: Db, c: Command) {
    && (c.DoIngest? && Ingested(x, db, c.req, c.env).1.Ok? ==>
          var m := Gate(c.req, c.env).value;
          FindByHash(db.rows, m.hash).Some? || KnowsAll(db.events, m))
    && (c.DoReplay? ==> Reconciled(db.events, ReplayDeliveries(x, db.events)))
  }

  /** The ids a rebuild generates never repeat. */
  ghost predicate FreshIds(c: Command) {
    c.DoReplay? ==> forall i: nat, j: nat :: i < j ==> c.envs(i).uuid != c.envs(j).uuid
  }

  lemma EnvsFresh(c: Command, n: nat)
    requires c.DoReplay? && FreshIds(c)
    ensures Fresh(Envs(c.envs, n))
  {
  }

  lemma StepAgreesIff(x: Extractors, db: Db, c: Command)
    requires Consistent(db) && Agree(db)
    requires c.DoReplay? ==> SourcedEvents(db.events) && (CanonicalLog(db.events) || FreshIds(c))
    ensures Agree(Step(x, db, c)) <==> Informed(x, db, c)
  {
    hide Consistent, Stored, Deleted, Rebuilt, KnowsAll, SourcedEvents, CanonicalLog, Agree, Reconciled, FreshIds,
         Fresh;
    match c
    case DoIngest(req, env) =>
      if Ingested(x, db, req, env).1.Ok? {
        StoredAgreesIff(x, db, Gate(req, env).value, env.now);
      } else {
        FailedWrite(x, db, req, env);
      }
    case DoDelete(id) => DeleteAgrees(db, id);
    case DoReplay(envs) =>
      if db.events == [] {
        NothingRebuilt(x, db, Envs(envs, 0));
        assert Reconciled([], ReplayDeliveries(x, [])) by { NothingToReconcile(x); }
      } else if CanonicalLog(db.events) {
        EventsDistinct(db);
        CanonicalReconciled(x, db.events);
        RebuildAgrees(x, db, Envs(envs, |db.events|));
      } else {
        EnvsFresh(c, |db.events|);
        StepRebuilds(x, db, c);
        RebuildAgreesIff(x, db, Envs(envs, |db.events|));
      }
    case DoMark(id, consumer) => MarkAgrees(db, id, consumer);
    case _ => SameAgree(db, Step(x, db, c));
  }

  lemma StepRebuilds(x: Extractors, db: Db, c: Command)
    requires c.DoReplay? && db.events != []
    ensures var r := Rebuilt(x, db, Envs(c.envs, |db.events|)); r.Some? && Step(x, db, c) == r.value.0
  {
  }

  lemma NothingToReconcile(x: Extractors)
    ensures Reconciled([], ReplayDeliveries(x, []))
  {
  }

  lemma SameAgree(db: Db, after: Db)
    requires after.rows == db.rows && after.events == db.events
    ensures Agree(after) <==> Agree(db)
  {
  }

  ghost predicate AlwaysAgree(x: Extractors, cmds: seq<Command>) {
    Agree(Run(x, EMPTY_DB, cmds)) && (cmds != [] ==> AlwaysAgree(x, cmds[..|cmds| - 1]))
  }

  ghost predicate AlwaysInformed(x: Extractors, cmds: seq<Command>) {
    cmds != [] ==>
      AlwaysInformed(x, cmds[..|cmds| - 1])
      && Informed(x, Run(x, EMPTY_DB, cmds[..|cmds| - 1]), cmds[|cmds| - 1])
  }

  /** No full rebuild of the run changes its log: there is none, or all hashes are canonical. */
  ghost predicate LogStays(cmds: seq<Command>) {
    (forall c :: c in cmds ==> !c.DoReplay?) || (forall c :: c in cmds ==> Canonical(c))
  }

  /** Every caller's hash belongs to its text, trimmed or not, and rebuilds generate fresh ids. */
  ghost predicate SoundAndFresh(cmds: seq<Command>) {
    forall c :: c in cmds ==> Sound(c) && FreshIds(c)
  }

  /** Over every such run, deletes and rebuilds included, rows and events agree in every state
      exactly when each committed write is informed and each rebuild reconciles its log. */
  lemma {:induction false} AlwaysAgreeIff(x: Extractors, cmds: seq<Command>)
    requires LogStays(cmds) || SoundAndFresh(cmds)
    ensures AlwaysAgree(x, cmds) <==> AlwaysInformed(x, cmds)
  {
    hide Step, Agree, Informed, Consistent, Canonical, Sound, FreshIds, SourcedEvents, SourcedRows, CanonicalLog;
    if cmds == [] {
      EmptyAgrees();
    } else {
      var before, last := cmds[..|cmds| - 1], cmds[|cmds| - 1];
      AlwaysAgreeIff(x, before);
      if AlwaysAgree(x, before) {
        ReachableKeeps(x, before);
        if last.DoReplay? {
          assert last in cmds;
          forall c { CanonicalIsSound(c); }
          RunSourced(x, before);
        }
        StepAgreesIff(x, Run(x, EMPTY_DB, before), last);
      }
    }
  }

  /** So in such runs every live row carries the provenance of the event it names. */
  lemma RowAgreesWithEvent(x: Extractors, cmds: seq<Command>, r: Row, e: Event)
    requires (LogStays(cmds) || SoundAndFresh(cmds)) && AlwaysInformed(x, cmds)
    requires r in Run(x, EMPTY_DB, cmds).rows && e in Run(x, EMPTY_DB, cmds).events && e.id == r.rawEntry
    ensures r.prov == e.prov
  {
    hide Run, AlwaysInformed, LogStays, SoundAndFresh;
    AlwaysAgreeIff(x, cmds);
    var db := Run(x, EMPTY_DB, cmds);
    var i :| 0 <= i < |db.rows| && db.rows[i] == r;
    var j :| 0 <= j < |db.events| && db.events[j] == e;
  }

  /** Without deletes and rebuilds every write is informed, whatever it delivers. */
  lemma WithoutDeletesInformed(x: Extractors, cmds: seq<Command>)
    requires forall c :: c in cmds ==> !c.DoReplay? && !c.DoDelete?
    ensures AlwaysInformed(x, cmds)
  {
    hide AlwaysAgree, AlwaysInformed;
    AlwaysAgreeIff(x, cmds);
    WithoutDeletesAgree(x, cmds);
  }

  lemma {:induction false} WithoutDeletesAgree(x: Extractors, cmds: seq<Command>)
    requires forall c :: c in cmds ==> !c.DoReplay? && !c.DoDelete?
    ensures AlwaysAgree(x, cmds)
  {
    hide Run, Deliveries, EventsMerge, RowsMerge, Agree;
    EventProvenance(x, cmds);
    RowProvenance(x, cmds);
    ReachableKeeps(x, cmds);
    MergedAgree(Run(x, EMPTY_DB, cmds), Deliveries(x, EMPTY_DB, cmds));
    if cmds != [] {
      WithoutDeletesAgree(x, cmds[..|cmds| - 1]);
    }
  }

  lemma MergedAgree(db: Db, ds: seq<Delivery>)
    requires Consistent(db) && EventsMerge(db.events, ds) && RowsMerge(db.rows, ds)
    ensures Agree(db)
  {
    forall i, j | 0 <= i < |db.rows| && 0 <= j < |db.events| && db.events[j].id == db.rows[i].rawEntry
      ensures db.rows[i].prov == db.events[j].prov
    {
      SameMerge(db, ds, db.rows[i], db.events[j]);
    }
  }

  lemma EmptyAgrees()
    ensures Agree(EMPTY_DB)
  {
  }

  /** Every row carries the first non-empty values that any committed ingest of its content
      delivered, over the whole run so far. */
  ghost predicate RowsCarryFirst(x: Extractors, cmds: seq<Command>) {
    var db, ds := Run(x, EMPTY_DB, cmds), Deliveries(x, EMPTY_DB, cmds);
    forall i :: 0 <= i < |db.rows| ==> db.rows[i].prov == FirstDelivered(ds, db.rows[i].hash)
  }

  ghost predicate EventFor(e: Event, r: Row, ds: seq<Delivery>) {
    e.id == r.rawEntry == r.hash && e.prov == FirstDelivered(ds, r.hash)
  }

  lemma CarryIffAgree(db: Db, ds: seq<Delivery>)
    requires Consistent(db) && EventsMerge(db.events, ds)
    ensures (forall i :: 0 <= i < |db.rows| ==> db.rows[i].prov == FirstDelivered(ds, db.rows[i].hash)) <==> Agree(db)
  {
    hide FirstDelivered;
    forall i | 0 <= i < |db.rows|
      ensures exists j :: 0 <= j < |db.events| && EventFor(db.events[j], db.rows[i], ds)
    {
      var j :| 0 <= j < |db.events| && db.events[j].id == db.rows[i].rawEntry;
      assert EventFor(db.events[j], db.rows[i], ds);
    }
  }

  /** The rows' half of the provenance law, for runs with deletes and rebuilds: it holds in a state
      exactly when its rows agree with its events. */
  lemma RowsCarryFirstIff(x: Extractors, cmds: seq<Command>)
    requires LogStays(cmds)
    ensures RowsCarryFirst(x, cmds) <==> Agree(Run(x, EMPTY_DB, cmds))
  {
    hide Run, Deliveries, EventsMerge, Consistent, Canonical;
    ReachableKeeps(x, cmds);
    if forall c :: c in cmds ==> !c.DoReplay? {
      EventProvenance(x, cmds);
    } else {
      EventProvenanceReplayed(x, cmds);
    }
    CarryIffAgree(Run(x, EMPTY_DB, cmds), Deliveries(x, EMPTY_DB, cmds));
  }

  // ---- rebuilds of any log deliver too ----

  /** The committed ingests of a run and, for each full rebuild, what it replays. */
  function AllDeliveries(x: Extractors, db: Db, cmds: seq<Command>): seq<Delivery> {
    if cmds == [] then []
    else
      var before, last := cmds[..|cmds| - 1], cmds[|cmds| - 1];
      var state := Run(x, db, before);
      AllDeliveries(x, db, before)
      + if last.DoReplay? then ReplayDeliveries(x, state.events) else DeliveryOf(x, state, last)
  }

  lemma {:induction false} ReplayEventsMerge(x: Extractors, db: Db, log: seq<Event>, envs: seq<Env>, n: nat,
                                             ds: seq<Delivery>)
    requires Consistent(db) && db.rows == [] && log == db.events && n <= |log| == |envs|
    requires SourcedEvents(log) && Fresh(envs) && EventsMerge(log, ds)
    ensures EventsMerge(Prefix(x, db, log, envs, n).0.events, ds + ReplayDeliveries(x, log[..n]))
    decreases n
  {
    hide Prefix, Stored, Consistent, Grows, ReplayMemory, GateClean, SourcedEvents, EventsMerge, LogAfter, HasId, Fresh,
         ReplayDeliveries;
    if n == 0 {
      MergeStart(x, db, log, envs, ds);
    } else {
      ReplayEventsMerge(x, db, log, envs, n - 1, ds);
      CleanAt(log, n - 1);
      PrefixNext(x, db, log, envs, n - 1);
      ReplayDeliveriesNext(x, log, n - 1);
      if !x.noise(log[n - 1].content) {
        var before, more := Prefix(x, db, log, envs, n - 1).0, ReplayDeliveries(x, log[..n - 1]);
        PrefixKeeps(x, db, log, envs, n - 1);
        EventsDistinct(before);
        ReplayCommits(x, db, log, envs, n - 1);
        OneMerged(x, before, log[n - 1], envs[n - 1], ds + more);
        Lists.Assoc(ds, more, [Delivery(HashContent(log[n - 1].content), log[n - 1].prov)]);
      }
    }
  }

  lemma MergeStart(x: Extractors, db: Db, log: seq<Event>, envs: seq<Env>, ds: seq<Delivery>)
    requires log == db.events && |log| == |envs| && EventsMerge(log, ds)
    ensures EventsMerge(Prefix(x, db, log, envs, 0).0.events, ds + ReplayDeliveries(x, log[..0]))
  {
    assert ds + [] == ds;
  }

  lemma OneMerged(x: Extractors, before: Db, e: Event, env: Env, ds: seq<Delivery>)
    requires DistinctEvents(before.events) && EventsMerge(before.events, ds)
    requires Stored(x, before, ReplayMemory(e, env), env.now).1.Ok?
    ensures EventsMerge(Stored(x, before, ReplayMemory(e, env), env.now).0.events,
                        ds + [Delivery(HashContent(e.content), e.prov)])
  {
    hide Stored, EventsMerge, LogAfter, DistinctEvents;
    StoredEvents(x, before, ReplayMemory(e, env), env.now);
    EventsMergeStep(before.events, ReplayMemory(e, env), env.now, ds);
  }

  lemma RebuildMerges(x: Extractors, db: Db, envs: seq<Env>, ds: seq<Delivery>)
    requires Consistent(db) && SourcedEvents(db.events) && db.events != []
    requires |envs| == |db.events| && Fresh(envs) && EventsMerge(db.events, ds)
    ensures EventsMerge(Rebuilt(x, db, envs).value.0.events, ds + ReplayDeliveries(x, db.events))
  {
    hide Replayed, SourcedEvents, EventsMerge, ReplayDeliveries, Prefix, Fresh;
    RebuiltEvents(x, db, envs);
    PrefixAll(x, Wiped(db), db.events, envs);
    ReplayEventsMerge(x, Wiped(db), db.events, envs, |envs|, ds);
    assert db.events[..|envs|] == db.events;
  }

  /** Over every run with sound hashes and fresh ids, each event carries the first non-empty values
      that any committed ingest or any rebuild delivered under its hash. */
  lemma {:induction false} EventProvenanceOfAll(x: Extractors, cmds: seq<Command>)
    requires SoundAndFresh(cmds)
    ensures EventsMerge(Run(x, EMPTY_DB, cmds).events, AllDeliveries(x, EMPTY_DB, cmds))
  {
    hide Step, DeliveryOf, EventsMerge, Consistent, Sound, FreshIds, SourcedEvents, SourcedRows, CanonicalLog, Fresh,
         ReplayDeliveries;
    if cmds == [] {
      NothingDelivered();
    } else {
      var before, last := cmds[..|cmds| - 1], cmds[|cmds| - 1];
      var db, ds := Run(x, EMPTY_DB, before), AllDeliveries(x, EMPTY_DB, before);
      EventProvenanceOfAll(x, before);
      ReachableKeeps(x, before);
      if last.DoReplay? {
        RunSourced(x, before);
        assert last in cmds;
        StepMerges(x, db, last, ds);
      } else {
        EventsDistinct(db);
        EventsStep(x, db, last, ds);
      }
    }
  }

  lemma StepMerges(x: Extractors, db: Db, c: Command, ds: seq<Delivery>)
    requires c.DoReplay? && FreshIds(c) && Consistent(db) && SourcedEvents(db.events) && EventsMerge(db.events, ds)
    ensures EventsMerge(Step(x, db, c).events, ds + ReplayDeliveries(x, db.events))
  {
    hide Rebuilt, EventsMerge, Consistent, FreshIds, SourcedEvents, Fresh;
    if db.events == [] {
      NothingRebuilt(x, db, Envs(c.envs, 0));
      assert ds + [] == ds;
    } else {
      EnvsFresh(c, |db.events|);
      StepRebuilds(x, db, c);
      RebuildMerges(x, db, Envs(c.envs, |db.events|), ds);
    }
  }

  /** And its rows carry the same values in a state exactly when they agree with their events. */
  lemma RowsCarryAllIff(x: Extractors, cmds: seq<Command>)
    requires SoundAndFresh(cmds)
    ensures var db, ds := Run(x, EMPTY_DB, cmds), AllDeliveries(x, EMPTY_DB, cmds);
      (forall i :: 0 <= i < |db.rows| ==> db.rows[i].prov == FirstDelivered(ds, db.rows[i].hash)) <==> Agree(db)
  {
    hide *;
    ReachableKeeps(x, cmds);
    EventProvenanceOfAll(x, cmds);
    CarryIffAgree(Run(x, EMPTY_DB, cmds), AllDeliveries(x, EMPTY_DB, cmds));
  }
}
