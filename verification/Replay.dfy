/** Rebuilding the derived tables from the event log. */
module Replay {
  import opened Text
  import opened Tables
  import opened Runs
  import opened ProvenanceLaws

  /** The memory that replaying an event writes. */
  function ReplayMemory(e: Event, env: Env): Memory {
    Memory(env.uuid, e.content, HashContent(e.content), Inbox, InboxCategory, "", [],
           if e.source == "" then "manual" else e.source, e.ingestedAt * NANOS, e.prov, 0, NO_METADATA)
  }

  lemma GateReplay(e: Event, env: Env)
    requires GateClean(e.content)
    ensures Gate(ReplayRequest(e), env) == Ok(ReplayMemory(e, env))
  {
    assert NormalizedTags([]) == [];
  }

  /** Replaying the event writes nothing new to the log. */
  ghost predicate Absorbed(log: seq<Event>, e: Event) {
    exists i :: 0 <= i < |log| && log[i].id == HashContent(e.content)
      && Backfill(log[i].prov, e.prov) == log[i].prov
  }

  lemma LogFixed(log: seq<Event>, e: Event, env: Env)
    requires DistinctEvents(log)
    ensures LogAfter(log, ReplayMemory(e, env), env.now) == log <==> Absorbed(log, e)
  {
    var m := ReplayMemory(e, env);
    var after := LogAfter(log, m, env.now);
    if Absorbed(log, e) {
      var i :| 0 <= i < |log| && log[i].id == m.hash && Backfill(log[i].prov, e.prov) == log[i].prov;
      forall j | 0 <= j < |log|
        ensures after[j] == log[j]
      {
        assert j != i ==> log[j].id != log[i].id;
      }
    }
    if after == log {
      assert HasEvent(log, m.hash);
      var i :| 0 <= i < |log| && log[i].id == m.hash;
      assert after[i].prov == Backfill(log[i].prov, e.prov);
    }
  }

  lemma StoredEvents(x: Extractors, db: Db, m: Memory, now: int)
    ensures var after := Stored(x, db, m, now);
      after.0.events == if after.1.Ok? then LogAfter(db.events, m, now) else db.events
  {
  }

  ghost predicate AllAbsorbed(x: Extractors, log: seq<Event>, events: seq<Event>) {
    forall e :: e in events && !x.noise(e.content) ==> Absorbed(log, e)
  }

  /** The state after replaying the first n events. */
  function Prefix(x: Extractors, db: Db, log: seq<Event>, envs: seq<Env>, n: nat): (Db, Stats)
    requires n <= |log| == |envs|
  {
    Replayed(x, db, log[..n], envs[..n])
  }

  lemma PrefixAll(x: Extractors, db: Db, log: seq<Event>, envs: seq<Env>)
    requires |log| == |envs|
    ensures Prefix(x, db, log, envs, |log|) == Replayed(x, db, log, envs)
  {
    assert log[..|log|] == log && envs[..|log|] == envs;
  }

  lemma PrefixNext(x: Extractors, db: Db, log: seq<Event>, envs: seq<Env>, n: nat)
    requires n < |log| == |envs| && GateClean(log[n].content)
    ensures var (before, st) := Prefix(x, db, log, envs, n);
      Prefix(x, db, log, envs, n + 1)
      == if x.noise(log[n].content) then (before, Tallied(st, false))
         else
           var after := Stored(x, before, ReplayMemory(log[n], envs[n]), envs[n].now);
           (after.0, Tallied(st, after.1.Ok?))
  {
    hide Gate, Stored, GateClean;
    assert log[..n + 1][..n] == log[..n] && envs[..n + 1][..n] == envs[..n];
    GateReplay(log[n], envs[n]);
  }

  lemma {:induction false} ReplayFixes(x: Extractors, db: Db, log: seq<Event>, envs: seq<Env>, n: nat)
    requires DistinctEvents(db.events) && SourcedEvents(log) && n <= |log| == |envs|
    requires AllAbsorbed(x, db.events, log)
    ensures Prefix(x, db, log, envs, n).0.events == db.events
    decreases n
  {
    hide ReplayOne, Stored, LogAfter, Absorbed;
    if n > 0 {
      var e, env := log[n - 1], envs[n - 1];
      ReplayFixes(x, db, log, envs, n - 1);
      PrefixNext(x, db, log, envs, n - 1);
      assert e in log;
      LogFixed(db.events, e, env);
      StoredEvents(x, Prefix(x, db, log, envs, n - 1).0, ReplayMemory(e, env), env.now);
    }
  }

  /** Generated ids that do not repeat. */
  ghost predicate Fresh(envs: seq<Env>) {
    forall i, j :: 0 <= i < j < |envs| ==> envs[i].uuid != envs[j].uuid
  }

  /** The id was generated by one of the first n calls. */
  ghost predicate IdFrom(id: Id, envs: seq<Env>, n: nat) {
    exists k :: 0 <= k < n && k < |envs| && id == envs[k].uuid
  }

  ghost predicate IdsFrom(rows: seq<Row>, envs: seq<Env>, n: nat) {
    forall i :: 0 <= i < |rows| ==> IdFrom(rows[i].id, envs, n)
  }

  lemma NotYet(rows: seq<Row>, envs: seq<Env>, n: nat)
    requires IdsFrom(rows, envs, n) && Fresh(envs) && n < |envs|
    ensures !HasId(rows, envs[n].uuid)
  {
  }

  lemma StoredIds(x: Extractors, db: Db, m: Memory, now: int)
    ensures var after := Stored(x, db, m, now);
      && (after.1.Ok? <==> FindByHash(db.rows, m.hash).Some? || !HasId(db.rows, m.id))
      && (forall i :: 0 <= i < |after.0.rows| ==>
            after.0.rows[i].id == m.id || (i < |db.rows| && after.0.rows[i].id == db.rows[i].id))
  {
  }

  lemma IdsFromNext(before: seq<Row>, after: seq<Row>, envs: seq<Env>, n: nat)
    requires IdsFrom(before, envs, n) && n < |envs|
    requires forall i :: 0 <= i < |after| ==>
      after[i].id == envs[n].uuid || (i < |before| && after[i].id == before[i].id)
    ensures IdsFrom(after, envs, n + 1)
  {
    forall i | 0 <= i < |after|
      ensures IdFrom(after[i].id, envs, n + 1)
    {
      if after[i].id != envs[n].uuid {
        var k :| 0 <= k < n && k < |envs| && before[i].id == envs[k].uuid;
        assert after[i].id == envs[k].uuid;
      }
    }
  }

  lemma {:induction false} ReplayIds(x: Extractors, db: Db, log: seq<Event>, envs: seq<Env>, n: nat)
    requires db.rows == [] && SourcedEvents(log) && n <= |log| == |envs|
    ensures IdsFrom(Prefix(x, db, log, envs, n).0.rows, envs, n)
    decreases n
  {
    hide ReplayOne, Stored, IdFrom, FindByHash, HasId;
    if n > 0 {
      ReplayIds(x, db, log, envs, n - 1);
      PrefixNext(x, db, log, envs, n - 1);
      var before := Prefix(x, db, log, envs, n - 1).0;
      StoredIds(x, before, ReplayMemory(log[n - 1], envs[n - 1]), envs[n - 1].now);
      IdsFromNext(before.rows, Prefix(x, db, log, envs, n).0.rows, envs, n - 1);
    }
  }

  lemma ReplayCommits(x: Extractors, db: Db, log: seq<Event>, envs: seq<Env>, n: nat)
    requires db.rows == [] && SourcedEvents(log) && n < |log| == |envs| && Fresh(envs)
    ensures var before := Prefix(x, db, log, envs, n).0;
      !HasId(before.rows, envs[n].uuid)
      && Stored(x, before, ReplayMemory(log[n], envs[n]), envs[n].now).1.Ok?
  {
    hide Replayed, ReplayOne, Stored, IdsFrom;
    var before := Prefix(x, db, log, envs, n).0;
    ReplayIds(x, db, log, envs, n);
    NotYet(before.rows, envs, n);
    StoredIds(x, before, ReplayMemory(log[n], envs[n]), envs[n].now);
  }

  lemma FixedStep(x: Extractors, db: Db, before: Db, e: Event, env: Env)
    requires Consistent(db) && Consistent(before) && Grows(db.events, before.events)
    requires Stored(x, before, ReplayMemory(e, env), env.now).1.Ok?
    requires Stored(x, before, ReplayMemory(e, env), env.now).0.events == db.events
    ensures before.events == db.events && Absorbed(db.events, e)
  {
    hide Stored, LogAfter, Absorbed, Grows;
    StoreKeeps(x, before, ReplayMemory(e, env), env.now);
    GrowsAntisymmetric(db.events, before.events);
    StoredEvents(x, before, ReplayMemory(e, env), env.now);
    LogFixed(db.events, e, env);
  }

  lemma PrefixKeeps(x: Extractors, db: Db, log: seq<Event>, envs: seq<Env>, n: nat)
    requires Consistent(db) && n <= |log| == |envs|
    ensures Consistent(Prefix(x, db, log, envs, n).0)
    ensures Grows(db.events, Prefix(x, db, log, envs, n).0.events)
  {
    hide Consistent, Grows, Replayed;
    ReplayKeeps(x, db, log[..n], envs[..n]);
  }

  lemma {:induction false} FixedOnlyIfAbsorbed(x: Extractors, db: Db, log: seq<Event>, envs: seq<Env>, n: nat)
    requires Consistent(db) && db.rows == [] && SourcedEvents(log) && n <= |log| == |envs| && Fresh(envs)
    requires Prefix(x, db, log, envs, n).0.events == db.events
    ensures forall i :: 0 <= i < n && !x.noise(log[i].content) ==> Absorbed(db.events, log[i])
    decreases n
  {
    hide Prefix, Stored, Consistent, Absorbed, Grows, HasId, Fresh, ReplayMemory, GateClean, Trim;
    if n > 0 {
      PrefixKeeps(x, db, log, envs, n - 1);
      PrefixNext(x, db, log, envs, n - 1);
      if !x.noise(log[n - 1].content) {
        ReplayCommits(x, db, log, envs, n - 1);
        FixedStep(x, db, Prefix(x, db, log, envs, n - 1).0, log[n - 1], envs[n - 1]);
      }
      FixedOnlyIfAbsorbed(x, db, log, envs, n - 1);
      forall i | 0 <= i < n && !x.noise(log[i].content)
        ensures Absorbed(db.events, log[i])
      {
        assert i == n - 1 || i < n - 1;
      }
    }
  }

  lemma RebuiltEvents(x: Extractors, db: Db, envs: seq<Env>)
    requires |envs| == |db.events| && db.events != []
    ensures Rebuilt(x, db, envs).value.0.events == Replayed(x, Wiped(db), db.events, envs).0.events
  {
  }

  /** A full rebuild leaves the log unchanged exactly when every event it replays is already
      there under the hash of its own text, with nothing more to contribute. */
  lemma RebuildFixesLogIff(x: Extractors, db: Db, envs: seq<Env>)
    requires Consistent(db) && SourcedEvents(db.events) && db.events != []
    requires |envs| == |db.events| && Fresh(envs)
    ensures Rebuilt(x, db, envs).value.0.events == db.events <==> AllAbsorbed(x, db.events, db.events)
  {
    hide Replayed, Rebuilt, Absorbed, SourcedEvents;
    RebuiltEvents(x, db, envs);
    PrefixAll(x, Wiped(db), db.events, envs);
    if AllAbsorbed(x, db.events, db.events) {
      ReplayFixes(x, Wiped(db), db.events, envs, |envs|);
    }
    if Replayed(x, Wiped(db), db.events, envs).0.events == db.events {
      FixedOnlyIfAbsorbed(x, Wiped(db), db.events, envs, |envs|);
    }
  }

  lemma CanonicalAbsorbs(x: Extractors, log: seq<Event>)
    requires CanonicalLog(log)
    ensures AllAbsorbed(x, log, log)
  {
    forall e | e in log && !x.noise(e.content)
      ensures Absorbed(log, e)
    {
      var i :| 0 <= i < |log| && log[i] == e;
      BackfillLaws(e.prov, NO_PROVENANCE, NO_PROVENANCE);
      assert log[i].id == HashContent(e.content);
    }
  }

  /** A canonical log survives every rebuild, whatever ids are generated. */
  lemma RebuildFixesCanonicalLog(x: Extractors, db: Db, envs: seq<Env>)
    requires DistinctEvents(db.events) && SourcedEvents(db.events) && CanonicalLog(db.events) && db.events != []
    requires |envs| == |db.events|
    ensures Rebuilt(x, db, envs).value.0.events == db.events
  {
    hide Replayed, Rebuilt, Absorbed, SourcedEvents;
    RebuiltEvents(x, db, envs);
    CanonicalAbsorbs(x, db.events);
    PrefixAll(x, Wiped(db), db.events, envs);
    ReplayFixes(x, Wiped(db), db.events, envs, |envs|);
  }

  // ---- the derived tables after a replay, in closed form ----

  /** One row per event that is not noise, in log order, under the id generated for it. */
  function ReplayedRows(x: Extractors, log: seq<Event>, envs: seq<Env>, n: nat): seq<Row>
    requires n <= |log| == |envs|
  {
    if n == 0 then []
    else
      var before := ReplayedRows(x, log, envs, n - 1);
      if x.noise(log[n - 1].content) then before
      else before + [RowOf(x, ReplayMemory(log[n - 1], envs[n - 1]))]
  }

  /** The keyword tags of a row written without caller tags. */
  function OwnTags(x: Extractors, r: Row): set<(Id, string)> {
    TagRows(r.id, MergedTags([], x.keywords(r.content)))
  }

  function TagsOfRows(x: Extractors, rows: seq<Row>): set<(Id, string)> {
    set r, p | r in rows && p in OwnTags(x, r) :: p
  }

  lemma TagsOfAppend(x: Extractors, rows: seq<Row>, r: Row)
    ensures TagsOfRows(x, rows + [r]) == TagsOfRows(x, rows) + OwnTags(x, r)
  {
    assert r in rows + [r];
  }

  lemma {:induction false} HashesFromLog(x: Extractors, log: seq<Event>, envs: seq<Env>, n: nat)
    requires n <= |log| == |envs| && CanonicalLog(log)
    ensures forall r :: r in ReplayedRows(x, log, envs, n) ==> exists i :: 0 <= i < n && log[i].id == r.hash
  {
    if n > 0 {
      HashesFromLog(x, log, envs, n - 1);
      assert log[n - 1].id == HashContent(log[n - 1].content);
    }
  }

  lemma NotYetReplayed(x: Extractors, log: seq<Event>, envs: seq<Env>, n: nat)
    requires n < |log| == |envs| && CanonicalLog(log) && DistinctEvents(log)
    ensures FindByHash(ReplayedRows(x, log, envs, n), log[n].id).None?
  {
    HashesFromLog(x, log, envs, n);
    var rows := ReplayedRows(x, log, envs, n);
    forall i | 0 <= i < |rows|
      ensures rows[i].hash != log[n].id
    {
      assert rows[i] in rows;
    }
  }

  /** An inbox write of new content under a new id only appends. */
  lemma StoreAppends(x: Extractors, db: Db, m: Memory, now: int)
    requires m.phase == Inbox && FindByHash(db.rows, m.hash).None? && !HasId(db.rows, m.id)
    requires m.tags == []
    ensures var row := RowOf(x, m);
      Stored(x, db, m, now)
      == (Db(LogAfter(db.events, m, now), db.rows + [row], db.tags + OwnTags(x, row), db.links,
             db.fts + [FtsOfRow(row)]), Ok(m.id))
  {
    var rows := db.rows + [RowOf(x, m)];
    assert SupersedeRows(rows, {}, m.id) == rows;
  }

  /** What a replay of n events leaves, given only the log and the generated ids. */
  function ClosedForm(x: Extractors, log: seq<Event>, envs: seq<Env>, n: nat): Db
    requires n <= |log| == |envs|
  {
    var rows := ReplayedRows(x, log, envs, n);
    Db(log, rows, TagsOfRows(x, rows), {}, FtsOf(rows))
  }

  lemma ClosedFormStep(x: Extractors, log: seq<Event>, envs: seq<Env>, n: nat)
    requires n < |log| == |envs| && DistinctEvents(log) && CanonicalLog(log)
    requires !x.noise(log[n].content) && !HasId(ClosedForm(x, log, envs, n).rows, envs[n].uuid)
    ensures Stored(x, ClosedForm(x, log, envs, n), ReplayMemory(log[n], envs[n]), envs[n].now)
         == (ClosedForm(x, log, envs, n + 1), Ok(envs[n].uuid))
    ensures |ReplayedRows(x, log, envs, n + 1)| == |ReplayedRows(x, log, envs, n)| + 1
  {
    hide Stored, RowOf, OwnTags, LogAfter, Absorbed;
    var m := ReplayMemory(log[n], envs[n]);
    var rows := ReplayedRows(x, log, envs, n);
    NotYetReplayed(x, log, envs, n);
    StoreAppends(x, ClosedForm(x, log, envs, n), m, envs[n].now);
    CanonicalAbsorbs(x, log);
    assert log[n] in log;
    LogFixed(log, log[n], envs[n]);
    TagsOfAppend(x, rows, RowOf(x, m));
    assert FtsOf(rows + [RowOf(x, m)]) == FtsOf(rows) + [FtsOfRow(RowOf(x, m))];
  }

  lemma ClosedFormNoise(x: Extractors, log: seq<Event>, envs: seq<Env>, n: nat)
    requires n < |log| == |envs| && x.noise(log[n].content)
    ensures ClosedForm(x, log, envs, n + 1) == ClosedForm(x, log, envs, n)
    ensures |ReplayedRows(x, log, envs, n + 1)| == |ReplayedRows(x, log, envs, n)|
  {
  }

  lemma ClosedFormStart(x: Extractors, log: seq<Event>, envs: seq<Env>)
    requires |log| == |envs|
    ensures Prefix(x, ReplayStart(log), log, envs, 0)
         == (ClosedForm(x, log, envs, 0), Counts(|ReplayedRows(x, log, envs, 0)|, 0))
  {
    assert TagsOfRows(x, []) == {};
  }

  function ReplayStart(log: seq<Event>): Db { Db(log, [], {}, {}, []) }

  function Counts(rebuilt: nat, n: nat): Stats { NO_STATS.(rebuilt := rebuilt, skipped := n - rebuilt) }

  /** Replaying leaves exactly one memory per event that is not noise, in log order, with the
      event's text and provenance; the log is unchanged and the counters add up. */
  lemma {:induction false} ReplayClosedForm(x: Extractors, log: seq<Event>, envs: seq<Env>, n: nat)
    requires n <= |log| == |envs| && Fresh(envs)
    requires DistinctEvents(log) && SourcedEvents(log) && CanonicalLog(log)
    ensures Prefix(x, ReplayStart(log), log, envs, n)
         == (ClosedForm(x, log, envs, n), Counts(|ReplayedRows(x, log, envs, n)|, n))
    decreases n
  {
    hide Prefix, Stored, ClosedForm, ReplayedRows, HasId, ReplayMemory, CanonicalLog, DistinctEvents, GateClean, Trim;
    if n == 0 {
      ClosedFormStart(x, log, envs);
    } else {
      ReplayClosedForm(x, log, envs, n - 1);
      PrefixNext(x, ReplayStart(log), log, envs, n - 1);
      if !x.noise(log[n - 1].content) {
        ReplayCommits(x, ReplayStart(log), log, envs, n - 1);
        ClosedFormStep(x, log, envs, n - 1);
      } else {
        ClosedFormNoise(x, log, envs, n - 1);
      }
    }
  }

  lemma ReplayStepEvents(x: Extractors, db: Db, c: Command)
    requires c.DoReplay? && DistinctEvents(db.events) && SourcedEvents(db.events) && CanonicalLog(db.events)
    ensures Step(x, db, c).events == db.events
  {
    hide Rebuilt;
    if db.events != [] {
      RebuildFixesCanonicalLog(x, db, Envs(c.envs, |db.events|));
    } else {
      assert Rebuilt(x, db, Envs(c.envs, 0)).None? by { EmptyNotRebuilt(x, db); }
    }
  }

  lemma EmptyNotRebuilt(x: Extractors, db: Db)
    requires db.events == []
    ensures Rebuilt(x, db, []).None?
  {
  }

  /** With canonical hashes full rebuilds may come anywhere in the run: the log still carries,
      for every content, the first non-empty provenance that any committed ingest delivered. */
  lemma {:induction false} EventProvenanceReplayed(x: Extractors, cmds: seq<Command>)
    requires forall c :: c in cmds ==> Canonical(c)
    ensures EventsMerge(Run(x, EMPTY_DB, cmds).events, Deliveries(x, EMPTY_DB, cmds))
  {
    hide Step, FirstDelivered, SourcedEvents, CanonicalLog, DistinctEvents, EventsMerge, Sound, Canonical;
    if cmds == [] {
      NothingDelivered();
    } else {
      var before, last := cmds[..|cmds| - 1], cmds[|cmds| - 1];
      var db, ds := Run(x, EMPTY_DB, before), Deliveries(x, EMPTY_DB, before);
      EventProvenanceReplayed(x, before);
      ReachableKeeps(x, before);
      if last.DoReplay? {
        forall c { CanonicalIsSound(c); }
        RunSourced(x, before);
        ReplayStepEvents(x, db, last);
        assert ds + [] == ds;
      } else {
        EventsStep(x, db, last, ds);
      }
    }
  }

  lemma NothingDelivered()
    ensures EventsMerge([], [])
  {
  }
}
