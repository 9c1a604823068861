/** When two live rows can hold the same text, and exactly which write lets them. */
module Duplicates {
  import opened Tables
  import opened Runs
  import opened ProvenanceLaws
  import opened WriteLaws

  ghost predicate DistinctContent(rows: seq<Row>) {
    forall i, j :: 0 <= i < j < |rows| ==> rows[i].content != rows[j].content
  }

  ghost predicate HoldsText(rows: seq<Row>, text: string) {
    exists i :: 0 <= i < |rows| && rows[i].content == text
  }

  /** The write either adds its text at the end or adds none. */
  lemma StoredContents(x: Extractors, db: Db, m: Memory, now: int)
    requires Stored(x, db, m, now).1.Ok?
    ensures var after := Stored(x, db, m, now).0.rows;
      && |after| == |db.rows| + (if FindByHash(db.rows, m.hash).Some? then 0 else 1)
      && (forall i :: 0 <= i < |db.rows| ==> after[i].content == db.rows[i].content)
      && (FindByHash(db.rows, m.hash).None? ==> after[|db.rows|].content == m.content)
  {
    hide MergedTags, Overtaken, BackfillEvents, AppendEvent;
  }

  /** A committed write keeps all live texts different exactly when its hash is known or no live
      row holds its text. */
  lemma StoredDistinctIff(x: Extractors, db: Db, m: Memory, now: int)
    requires DistinctContent(db.rows) && Stored(x, db, m, now).1.Ok?
    ensures DistinctContent(Stored(x, db, m, now).0.rows)
       <==> FindByHash(db.rows, m.hash).Some? || !HoldsText(db.rows, m.content)
  {
    hide Stored;
    StoredContents(x, db, m, now);
    var after := Stored(x, db, m, now).0.rows;
    if FindByHash(db.rows, m.hash).None? && HoldsText(db.rows, m.content) {
      var i :| 0 <= i < |db.rows| && db.rows[i].content == m.content;
      assert after[i].content == after[|db.rows|].content;
    }
  }

  lemma SameContents(rows: seq<Row>, after: seq<Row>)
    requires |after| == |rows| && forall i :: 0 <= i < |rows| ==> after[i].content == rows[i].content
    ensures DistinctContent(rows) <==> DistinctContent(after)
  {
    if DistinctContent(after) {
      forall i, j | 0 <= i < j < |rows|
        ensures rows[i].content != rows[j].content
      {
        assert after[i].content != after[j].content;
      }
    }
  }

  lemma DeleteDistinct(db: Db, id: string)
    requires Consistent(db) && DistinctContent(db.rows)
    ensures DistinctContent(Deleted(db, id).0.rows)
  {
    hide Deleted, Consistent;
    DeleteRemovesOne(db, id);
  }

  // ---- a full rebuild hashes every text itself ----

  ghost predicate CanonicalRows(rows: seq<Row>) {
    forall i :: 0 <= i < |rows| ==> rows[i].hash == HashContent(rows[i].content)
  }

  lemma StoredCanonical(x: Extractors, db: Db, m: Memory, now: int)
    requires CanonicalRows(db.rows) && m.hash == HashContent(m.content)
    ensures CanonicalRows(Stored(x, db, m, now).0.rows)
  {
    hide MergedTags, Overtaken, BackfillEvents, AppendEvent;
  }

  lemma {:induction false} ReplayCanonical(x: Extractors, db: Db, log: seq<Event>, envs: seq<Env>)
    requires CanonicalRows(db.rows) && |log| == |envs|
    ensures CanonicalRows(Replayed(x, db, log, envs).0.rows)
  {
    hide Stored, CanonicalRows;
    if log != [] {
      var n := |log| - 1;
      ReplayCanonical(x, db, log[..n], envs[..n]);
      var before, gated := Replayed(x, db, log[..n], envs[..n]).0, Gate(ReplayRequest(log[n]), envs[n]);
      if gated.Ok? {
        StoredCanonical(x, before, gated.value, envs[n].now);
      }
    }
  }

  lemma CanonicalDistinct(rows: seq<Row>)
    requires DistinctRows(rows) && CanonicalRows(rows)
    ensures DistinctContent(rows)
  {
    forall i, j | 0 <= i < j < |rows|
      ensures rows[i].content != rows[j].content
    {
      assert rows[i].hash != rows[j].hash;
    }
  }

  /** So after a full rebuild no text is live twice, whatever the log holds. */
  lemma RebuildDistinct(x: Extractors, db: Db, envs: seq<Env>)
    requires Consistent(db) && |envs| == |db.events| && db.events != []
    ensures DistinctContent(Rebuilt(x, db, envs).value.0.rows)
  {
    hide Consistent, Replayed;
    RebuildKeeps(x, db, envs);
    RowsDistinct(Rebuilt(x, db, envs).value.0);
    ReplayCanonical(x, Wiped(db), db.events, envs);
    CanonicalDistinct(Rebuilt(x, db, envs).value.0.rows);
  }

  // ---- whole runs ----

  /** A write that commits under a hash of its own brings a text that no live row holds. */
  ghost predicate BringsNewText(x: Extractors, db: Db, c: Command) {
    c.DoIngest? && Ingested(x, db, c.req, c.env).1.Ok? ==>
      var m := Gate(c.req, c.env).value;
      FindByHash(db.rows, m.hash).Some? || !HoldsText(db.rows, m.content)
  }

  lemma StepDistinctIff(x: Extractors, db: Db, c: Command)
    requires Consistent(db) && DistinctContent(db.rows)
    ensures DistinctContent(Step(x, db, c).rows) <==> BringsNewText(x, db, c)
  {
    hide Consistent, DistinctContent, Stored, Deleted, Rebuilt;
    match c
    case DoIngest(req, env) =>
      if Ingested(x, db, req, env).1.Ok? {
        StoredDistinctIff(x, db, Gate(req, env).value, env.now);
      } else {
        FailedWrite(x, db, req, env);
      }
    case DoDelete(id) => DeleteDistinct(db, id);
    case DoReplay(envs) =>
      if db.events != [] {
        RebuildDistinct(x, db, Envs(envs, |db.events|));
      } else {
        NothingRebuilt(x, db, Envs(envs, 0));
      }
    case DoMark(id, consumer) => SameContents(db.rows, MarkRows(db.rows, id, consumer));
    case _ =>
  }

  lemma NothingRebuilt(x: Extractors, db: Db, envs: seq<Env>)
    requires db.events == [] && envs == []
    ensures Rebuilt(x, db, envs).None?
  {
  }

  ghost predicate AlwaysDistinct(x: Extractors, cmds: seq<Command>) {
    DistinctContent(Run(x, EMPTY_DB, cmds).rows) && (cmds != [] ==> AlwaysDistinct(x, cmds[..|cmds| - 1]))
  }

  ghost predicate AlwaysNewText(x: Extractors, cmds: seq<Command>) {
    cmds != [] ==>
      AlwaysNewText(x, cmds[..|cmds| - 1])
      && BringsNewText(x, Run(x, EMPTY_DB, cmds[..|cmds| - 1]), cmds[|cmds| - 1])
  }

  /** Over every run of any commands, no text is ever live twice exactly when each write that
      commits under a new hash brings a text that is not live. */
  lemma {:induction false} AlwaysDistinctIff(x: Extractors, cmds: seq<Command>)
    ensures AlwaysDistinct(x, cmds) <==> AlwaysNewText(x, cmds)
  {
    hide Step, DistinctContent, BringsNewText, Consistent;
    if cmds == [] {
      assert DistinctContent([]) by { CanonicalDistinct([]); }
    } else {
      var before := cmds[..|cmds| - 1];
      AlwaysDistinctIff(x, before);
      if AlwaysDistinct(x, before) {
        ReachableKeeps(x, before);
        StepDistinctIff(x, Run(x, EMPTY_DB, before), cmds[|cmds| - 1]);
      }
    }
  }

  lemma CanonicalBringsNewText(x: Extractors, db: Db, c: Command)
    requires Consistent(db) && SourcedEvents(db.events) && SourcedRows(db.rows) && CanonicalLog(db.events)
    requires Canonical(c)
    ensures BringsNewText(x, db, c)
  {
    hide Consistent, SourcedEvents, SourcedRows, CanonicalLog, Stored, FindByHash;
    if c.DoIngest? && Ingested(x, db, c.req, c.env).1.Ok? {
      CanonicalIsSound(c);
      GatedContent(c.req, c.env);
      var m := Gate(c.req, c.env).value;
      if HoldsText(db.rows, m.content) {
        var i :| 0 <= i < |db.rows| && db.rows[i].content == m.content;
        RowTraces(db, db.rows[i]);
        HashIsKnown(db.rows, i);
      }
    }
  }

  lemma HashIsKnown(rows: seq<Row>, i: nat)
    requires i < |rows|
    ensures FindByHash(rows, rows[i].hash).Some?
  {
  }

  /** Canonical hashes are enough: then no two live rows hold the same text. */
  lemma NoDuplicateContent(x: Extractors, cmds: seq<Command>)
    requires forall c :: c in cmds ==> Canonical(c)
    ensures AlwaysDistinct(x, cmds)
  {
    AlwaysDistinctIff(x, cmds);
    CanonicalAlwaysNew(x, cmds);
  }

  lemma {:induction false} CanonicalAlwaysNew(x: Extractors, cmds: seq<Command>)
    requires forall c :: c in cmds ==> Canonical(c)
    ensures AlwaysNewText(x, cmds)
  {
    hide Step, BringsNewText, Consistent, Canonical, Sound, SourcedEvents, SourcedRows, CanonicalLog;
    if cmds != [] {
      var before := cmds[..|cmds| - 1];
      CanonicalAlwaysNew(x, before);
      ReachableKeeps(x, before);
      forall c { CanonicalIsSound(c); }
      RunSourced(x, before);
      CanonicalBringsNewText(x, Run(x, EMPTY_DB, before), cmds[|cmds| - 1]);
    }
  }
}
