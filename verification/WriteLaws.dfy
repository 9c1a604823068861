/** What a write, a delete and a link promise their callers, across calls. */
module WriteLaws {
  import opened Lists
  import opened Text
  import opened Consumers
  import opened Tables
  import opened Runs

  // ---- tags ----

  /** No two tags equal up to case and edge space. */
  ghost predicate DistinctKeys(tags: seq<string>) {
    forall i, j :: 0 <= i < j < |tags| ==> TagKey(tags[i]) != TagKey(tags[j])
  }

  lemma {:induction false} DropRepeatsIs(tags: seq<string>)
    ensures var kept := DropRepeats(tags);
      && DistinctKeys(kept)
      && (forall t :: t in kept ==> t in tags && t != "")
      && (forall t :: t in tags && t != "" ==> TagKey(t) in TagKeys(kept))
  {
    hide TagKey;
    if tags != [] {
      var before, t := tags[..|tags| - 1], tags[|tags| - 1];
      assert tags == before + [t];
      DropRepeatsIs(before);
      var kept := DropRepeats(before);
      forall i | 0 <= i < |kept|
        ensures TagKey(kept[i]) in TagKeys(kept)
      {
        assert kept[i] in kept;
      }
      forall u | u in kept + [t]
        ensures TagKey(u) in TagKeys(kept + [t])
      {
      }
    }
  }

  lemma {:induction false} DropRepeatsGrows(a: seq<string>, b: seq<string>)
    ensures DropRepeats(a) <= DropRepeats(a + b)
    decreases |b|
  {
    if b == [] {
      assert a + b == a;
    } else {
      assert (a + b)[..|a + b| - 1] == a + b[..|b| - 1];
      DropRepeatsGrows(a, b[..|b| - 1]);
    }
  }

  /** Merging loses no tag up to case, repeats none, invents none, and the caller's tags win. */
  lemma MergedTagsAre(existing: seq<string>, extra: seq<string>)
    ensures var merged := MergedTags(existing, extra);
      && DistinctKeys(merged)
      && (forall t :: t in merged ==> (t in existing || t in extra) && t != "")
      && (forall t :: (t in existing || t in extra) && t != "" ==> TagKey(t) in TagKeys(merged))
      && DropRepeats(existing) <= merged
  {
    hide DropRepeats, TagKey, TagKeys, DistinctKeys;
    DropRepeatsIs(existing + extra);
    DropRepeatsGrows(existing, extra);
  }

  ghost predicate TrimmedFrom(tags: seq<string>, t: string) {
    exists u :: u in tags && Trim(u) == t
  }

  lemma TrimmedFromNext(tags: seq<string>, u: string, t: string)
    ensures TrimmedFrom(tags + [u], t) <==> TrimmedFrom(tags, t) || Trim(u) == t
  {
    hide Trim;
    if TrimmedFrom(tags, t) {
      var v :| v in tags && Trim(v) == t;
      assert v in tags + [u];
    }
    assert u in tags + [u];
  }

  /** The gate keeps exactly the trimmed non-empty tags, each once. */
  lemma {:induction false} NormalizedTagsAre(tags: seq<string>)
    ensures var out := NormalizedTags(tags);
      NoRepeats(out) && forall t :: t in out <==> t != "" && TrimmedFrom(tags, t)
  {
    hide Trim, TrimmedFrom, NoRepeats;
    if tags == [] {
      NothingTrimmed();
    } else {
      var before, last := tags[..|tags| - 1], tags[|tags| - 1];
      assert tags == before + [last];
      NormalizedTagsAre(before);
      var kept, u := NormalizedTags(before), Trim(last);
      AppendNoRepeats(kept, u);
      forall t
        ensures TrimmedFrom(tags, t) <==> TrimmedFrom(before, t) || u == t
      {
        TrimmedFromNext(before, last, t);
      }
      assert NormalizedTags(tags) == if u == "" || u in kept then kept else kept + [u];
    }
  }

  lemma AppendNoRepeats(s: seq<string>, x: string)
    ensures NoRepeats(s) && x !in s ==> NoRepeats(s + [x])
  {
  }

  lemma NothingTrimmed()
    ensures forall t :: !TrimmedFrom([], t)
    ensures NoRepeats<string>([])
  {
  }

  // ---- ingest ----

  /** A write fails only for the reasons the gate names, or because a new content arrives under
      an id that is taken, and then nothing at all has changed. */
  lemma IngestFailsIff(x: Extractors, db: Db, req: Request, env: Env)
    ensures var (after, r) := Ingested(x, db, req, env);
      var text, id := Trim(req.content), if req.id == "" then env.uuid else req.id;
      var hash := if req.hash.None? then HashContent(text) else req.hash.value;
      && (r == Err(EmptyContent) <==> text == "")
      && (r == Err(ContentTooLarge) <==> ByteLen(text) > MAX_CONTENT_LEN)
      && (r == Err(InvalidPhase) <==> text != "" && ByteLen(text) <= MAX_CONTENT_LEN && req.phase.Invalid?)
      && (r == Err(DuplicateId) <==> Gate(req, env).Ok? && FindByHash(db.rows, hash).None? && HasId(db.rows, id))
      && (r.Err? ==> after == db)
  {
    hide Trim, NormalizedTags, BackfillEvents, AppendEvent, MergedTags, Overtaken, SupersedeRows;
    EmptyHasNoBytes();
  }

  lemma FailedWrite(x: Extractors, db: Db, req: Request, env: Env)
    requires Ingested(x, db, req, env).1.Err?
    ensures Ingested(x, db, req, env).0 == db
  {
  }

  lemma EmptyHasNoBytes()
    ensures ByteLen("") == 0
  {
  }

  /** The row of a content, found by its hash, is unique. */
  lemma FoundIff(rows: seq<Row>, hash: Digest, id: Id)
    requires DistinctRows(rows)
    ensures FindByHash(rows, hash) == Some(id)
       <==> exists i :: 0 <= i < |rows| && rows[i].hash == hash && rows[i].id == id
  {
    if i :| 0 <= i < |rows| && rows[i].hash == hash && rows[i].id == id {
      var found := FindByHash(rows, hash);
      assert found.Some?;
      var j :| 0 <= j < |rows| && rows[j].hash == hash && rows[j].id == found.value;
      assert i == j;
    }
  }

  /** Backfilling by id reaches exactly the row of the hash. */
  lemma BackfilledAt(rows: seq<Row>, hash: Digest, id: Id, p: Provenance)
    requires DistinctRows(rows) && FindByHash(rows, hash) == Some(id)
    ensures var after := BackfillRows(rows, id, p);
      && |after| == |rows|
      && forall i :: 0 <= i < |rows| ==>
          after[i] == if rows[i].hash == hash then rows[i].(prov := Backfill(rows[i].prov, p)) else rows[i]
  {
    hide Backfill;
    var k :| 0 <= k < |rows| && rows[k].hash == hash && rows[k].id == id;
    assert forall i :: 0 <= i < |rows| && i != k ==> rows[i].id != rows[k].id && rows[i].hash != rows[k].hash;
  }

  /** Rows keep their place, id, hash, content, scope and source; new rows go to the end. */
  ghost predicate RowsStay(rows: seq<Row>, after: seq<Row>) {
    |rows| <= |after| && forall i :: 0 <= i < |rows| ==> SameRow(rows[i], after[i])
  }

  lemma InsertRowsStay(x: Extractors, db: Db, m: Memory, now: int)
    requires Inserted(x, db, m, now).Some?
    ensures var (db', id) := Inserted(x, db, m, now).value;
      && RowsStay(db.rows, db'.rows)
      && (exists i :: 0 <= i < |db'.rows| && db'.rows[i].hash == m.hash && db'.rows[i].id == id)
      && (FindByHash(db.rows, m.hash).Some? ==> id == FindByHash(db.rows, m.hash).value && |db'.rows| == |db.rows|)
  {
    hide BackfillEvents, AppendEvent, MergedTags;
    var (db', id) := Inserted(x, db, m, now).value;
    if FindByHash(db.rows, m.hash).Some? {
      var i :| 0 <= i < |db.rows| && db.rows[i].hash == m.hash && db.rows[i].id == id;
      assert db'.rows[i].hash == m.hash && db'.rows[i].id == id;
    } else {
      assert db'.rows[|db.rows|].hash == m.hash;
    }
  }

  lemma StoreRowsStay(x: Extractors, db: Db, m: Memory, now: int)
    requires Consistent(db)
    ensures var (after, r) := Stored(x, db, m, now);
      && RowsStay(db.rows, after.rows)
      && (r.Ok? ==> FindByHash(after.rows, m.hash) == Some(r.value))
      && (FindByHash(db.rows, m.hash).Some? ==>
            r == Ok(FindByHash(db.rows, m.hash).value) && |after.rows| == |db.rows|)
  {
    hide Inserted, Overtaken, Consistent, SupersedeRows, RowsStay;
    var (after, r) := Stored(x, db, m, now);
    StoreKeeps(x, db, m, now);
    RowsDistinct(after);
    hide DistinctRows;
    if Inserted(x, db, m, now).Some? {
      var (db', id) := Inserted(x, db, m, now).value;
      InsertRowsStay(x, db, m, now);
      MarksOnly(db'.rows, Overtaken(x, db'.rows, m, id), id, m.hash);
      StaysTransitive(db.rows, db'.rows, after.rows);
      FoundIff(after.rows, m.hash, id);
    } else {
      RejectedIsNew(x, db, m, now);
      StaysItself(db.rows);
    }
  }

  /** Superseding touches nothing but marks. */
  lemma MarksOnly(rows: seq<Row>, ids: set<Id>, newId: Id, hash: Digest)
    ensures var after := SupersedeRows(rows, ids, newId);
      && RowsStay(rows, after) && |after| == |rows|
      && ((exists i :: 0 <= i < |rows| && rows[i].hash == hash && rows[i].id == newId) ==>
            exists i :: 0 <= i < |after| && after[i].hash == hash && after[i].id == newId)
  {
    var after := SupersedeRows(rows, ids, newId);
    if i :| 0 <= i < |rows| && rows[i].hash == hash && rows[i].id == newId {
      assert after[i].hash == hash && after[i].id == newId;
    }
  }

  lemma RowsDistinct(db: Db)
    requires Consistent(db)
    ensures DistinctRows(db.rows)
  {
  }

  lemma RejectedIsNew(x: Extractors, db: Db, m: Memory, now: int)
    requires Inserted(x, db, m, now).None?
    ensures FindByHash(db.rows, m.hash).None?
  {
  }

  lemma StepRowsStay(x: Extractors, db: Db, c: Command)
    requires Consistent(db) && !c.DoDelete? && !c.DoReplay?
    ensures RowsStay(db.rows, Step(x, db, c).rows)
  {
    hide Stored, Consistent;
    if c.DoIngest? && Gate(c.req, c.env).Ok? {
      StoreRowsStay(x, db, Gate(c.req, c.env).value, c.env.now);
    }
  }

  lemma {:induction false} RunRowsStay(x: Extractors, db: Db, cmds: seq<Command>)
    requires Consistent(db) && forall c :: c in cmds ==> !c.DoDelete? && !c.DoReplay?
    ensures RowsStay(db.rows, Run(x, db, cmds).rows)
  {
    hide Step, Consistent, SameRow;
    if cmds == [] {
      StaysItself(db.rows);
    } else {
      var before := cmds[..|cmds| - 1];
      RunRowsStay(x, db, before);
      RunKeeps(x, db, before);
      StepRowsStay(x, Run(x, db, before), cmds[|cmds| - 1]);
      StaysTransitive(db.rows, Run(x, db, before).rows, Run(x, db, cmds).rows);
    }
  }

  lemma StaysItself(rows: seq<Row>)
    ensures RowsStay(rows, rows)
  {
  }

  lemma StaysTransitive(a: seq<Row>, b: seq<Row>, c: seq<Row>)
    requires RowsStay(a, b) && RowsStay(b, c)
    ensures RowsStay(a, c)
  {
    forall i | 0 <= i < |a|
      ensures SameRow(a[i], c[i])
    {
      assert SameRow(a[i], b[i]) && SameRow(b[i], c[i]);
    }
  }

  /** The marks a run puts on one row, in order. */
  function MarksOn(cmds: seq<Command>, id: Id): seq<Consumer> {
    if cmds == [] then []
    else
      var before, c := MarksOn(cmds[..|cmds| - 1], id), cmds[|cmds| - 1];
      if c.DoMark? && c.id == id then before + [c.consumer] else before
  }

  lemma StoreKeepsMask(x: Extractors, db: Db, m: Memory, now: int, i: nat)
    requires i < |db.rows|
    ensures var after := Stored(x, db, m, now).0.rows; i < |after| && after[i].mask == db.rows[i].mask
  {
    hide MergedTags, Overtaken, BackfillEvents, AppendEvent;
  }

  lemma StepMask(x: Extractors, db: Db, c: Command, i: nat)
    requires i < |db.rows| && !c.DoDelete? && !c.DoReplay?
    ensures var after := Step(x, db, c).rows;
      i < |after| && after[i].mask
        == if c.DoMark? && c.id == db.rows[i].id then Marked(db.rows[i].mask, c.consumer) else db.rows[i].mask
  {
    hide Stored, Marked;
    if c.DoIngest? && Gate(c.req, c.env).Ok? {
      StoreKeepsMask(x, db, Gate(c.req, c.env).value, c.env.now, i);
    }
  }

  lemma {:induction false} RunMarksFold(x: Extractors, db: Db, cmds: seq<Command>, i: nat)
    requires Consistent(db) && i < |db.rows| && forall c :: c in cmds ==> !c.DoDelete? && !c.DoReplay?
    ensures var after := Run(x, db, cmds).rows;
      && i < |after| && after[i].id == db.rows[i].id
      && after[i].mask == MarkAll(db.rows[i].mask, MarksOn(cmds, db.rows[i].id))
  {
    hide Step, Consistent, Marked;
    RunRowsStay(x, db, cmds);
    assert SameRow(db.rows[i], Run(x, db, cmds).rows[i]);
    if cmds != [] {
      var before, c := cmds[..|cmds| - 1], cmds[|cmds| - 1];
      var marks := MarksOn(before, db.rows[i].id);
      RunMarksFold(x, db, before, i);
      StepMask(x, Run(x, db, before), c, i);
      if c.DoMark? && c.id == db.rows[i].id {
        assert (marks + [c.consumer])[..|marks|] == marks;
      }
    }
  }

  /** Over every run short of deletes and full rebuilds, whatever is ingested, linked or reindexed in
      between, each row's mask is its initial mask OR the bits of the marks that name it. */
  lemma RunMarks(x: Extractors, db: Db, cmds: seq<Command>, i: nat)
    requires Consistent(db) && i < |db.rows| && forall c :: c in cmds ==> !c.DoDelete? && !c.DoReplay?
    ensures var after := Run(x, db, cmds).rows;
      && i < |after| && after[i].id == db.rows[i].id
      && after[i].mask == db.rows[i].mask | UnionBits(MarksOn(cmds, db.rows[i].id))
  {
    hide *;
    RunMarksFold(x, db, cmds, i);
    MarksAccumulate(db.rows[i].mask, MarksOn(cmds, db.rows[i].id));
  }

  /** A content keeps its id: whatever happens after a write, short of deletes and full rebuilds,
      writing the same content again returns the same id and adds no row. */
  lemma ReingestIsSafe(x: Extractors, db: Db, req: Request, env: Env, cmds: seq<Command>, again: Request, later: Env)
    requires Consistent(db) && forall c :: c in cmds ==> !c.DoDelete? && !c.DoReplay?
    requires Ingested(x, db, req, env).1.Ok? && Gate(again, later).Ok?
    requires Gate(again, later).value.hash == Gate(req, env).value.hash
    ensures var (first, r) := Ingested(x, db, req, env);
      var between := Run(x, first, cmds);
      var (after, s) := Ingested(x, between, again, later);
      s == r && |after.rows| == |between.rows| && |after.events| == |between.events|
  {
    hide Stored, Gate, Consistent, Run;
    var m, n := Gate(req, env).value, Gate(again, later).value;
    var (first, r) := Ingested(x, db, req, env);
    var between := Run(x, first, cmds);
    StoreKeeps(x, db, m, env.now);
    StoreRowsStay(x, db, m, env.now);
    RunKeeps(x, first, cmds);
    RunRowsStay(x, first, cmds);
    StillFound(first, between, m.hash, r.value);
    StoreRowsStay(x, between, n, later.now);
    KnownEventsStay(x, between, n, later.now);
  }

  lemma StillFound(first: Db, between: Db, hash: Digest, id: Id)
    requires Consistent(first) && Consistent(between) && RowsStay(first.rows, between.rows)
    requires FindByHash(first.rows, hash) == Some(id)
    ensures FindByHash(between.rows, hash) == Some(id)
  {
    FoundIff(first.rows, hash, id);
    var i :| 0 <= i < |first.rows| && first.rows[i].hash == hash && first.rows[i].id == id;
    assert SameRow(first.rows[i], between.rows[i]);
    FoundIff(between.rows, hash, id);
  }

  /** A content with a live row has its event already. */
  lemma KnownEventsStay(x: Extractors, db: Db, m: Memory, now: int)
    requires Consistent(db) && FindByHash(db.rows, m.hash).Some?
    ensures |Stored(x, db, m, now).0.events| == |db.events|
  {
    hide MergedTags, Overtaken, SupersedeRows, BackfillRows;
    var i :| 0 <= i < |db.rows| && db.rows[i].hash == m.hash;
    assert HasEvent(db.events, db.rows[i].rawEntry);
  }

  /** A write of known content enriches only: it commits, every row keeps its processing state
      (phase, category, mask, times), links and index stay, and no tag is lost. */
  lemma DedupKeepsState(x: Extractors, db: Db, m: Memory, now: int)
    requires FindByHash(db.rows, m.hash).Some?
    ensures var (after, r) := Stored(x, db, m, now);
      && r == Ok(FindByHash(db.rows, m.hash).value)
      && |after.rows| == |db.rows|
      && (forall i :: 0 <= i < |db.rows| ==>
            after.rows[i].(prov := db.rows[i].prov, metadata := db.rows[i].metadata) == db.rows[i])
      && after.links == db.links && after.fts == db.fts
      && db.tags <= after.tags
      && forall t :: t in MergedTags(m.tags, x.keywords(m.content)) ==> (r.value, t) in after.tags
  {
    hide MergedTags, Overtaken, BackfillEvents, AppendEvent;
  }

  // ---- delete ----

  /** A delete that finds its row removes that row and no other, keeps the order of the rest, and
      leaves the log alone; one that does not find it changes nothing. */
  lemma DeleteRemovesOne(db: Db, id: string)
    requires Consistent(db)
    ensures var (after, found) := Deleted(db, id);
      && after.events == db.events
      && (found.Found? ==>
            exists k :: 0 <= k < |db.rows| && db.rows[k].id == found.id
              && (id == found.id || Like(id + "%", found.id))
              && after.rows == db.rows[..k] + db.rows[k + 1..])
      && (!found.Found? ==> after == db)
  {
    hide Like, Consistent;
    var (after, found) := Deleted(db, id);
    if found.Found? {
      ResolvedLive(db.rows, id);
      var k :| 0 <= k < |db.rows| && db.rows[k].id == found.id;
      RowsDistinct(db);
      OnlyOneGoes(db.rows, k);
    }
  }

  /** An id without wildcards names a row by itself or by a prefix that no other row shares. */
  lemma DeleteByPrefix(db: Db, id: string)
    requires Consistent(db) && Deleted(db, id).1.Found? && forall i :: 0 <= i < |id| ==> !Wild(id[i])
    ensures PrefixOf(id, Deleted(db, id).1.id)
    ensures id != Deleted(db, id).1.id ==>
      forall i :: 0 <= i < |db.rows| && PrefixOf(id, db.rows[i].id) ==> db.rows[i].id == Deleted(db, id).1.id
  {
    hide Like, PrefixOf, Consistent;
    forall s { LikePrefix(id, s); }
    ResolvedLive(db.rows, id);
    PrefixOfItself(id);
    if id != Deleted(db, id).1.id {
      OnlyMatch(db.rows, id);
    }
  }

  lemma PrefixOfItself(s: string)
    ensures PrefixOf(s, s)
  {
  }

  lemma OnlyMatch(rows: seq<Row>, id: string)
    requires ResolveId(rows, id).Found? && ResolveId(rows, id).id != id
    ensures forall i :: 0 <= i < |rows| && Like(id + "%", rows[i].id) ==> rows[i].id == ResolveId(rows, id).id
  {
    hide Like;
    var matches := Filter(rows, IdLike(id + "%"));
    forall i | 0 <= i < |rows| && Like(id + "%", rows[i].id)
      ensures rows[i].id == ResolveId(rows, id).id
    {
      assert rows[i] in rows && rows[i] in matches;
    }
  }

  /** With a wildcard it need not be a prefix: deleting "%" takes the only row there is. */
  lemma WildcardDeletes(db: Db)
    requires |db.rows| == 1 && db.rows[0].id[0] != '%'
    ensures Deleted(db, "%").0.rows == [] && !PrefixOf("%", db.rows[0].id)
  {
    var r := db.rows[0];
    assert "%" + "%" == "%%" && "%%"[1..] == "%";
    PercentMatchesAll(r.id);
    assert db.rows[..0] == [];
    assert Filter(db.rows, IdLike("%%")) == [r];
    FilterNone(db.rows, NotId(r.id));
  }

  lemma ResolvedLive(rows: seq<Row>, id: string)
    requires ResolveId(rows, id).Found?
    ensures var full := ResolveId(rows, id).id; HasId(rows, full) && (id == full || Like(id + "%", full))
  {
    hide Like;
    if !HasId(rows, id) {
      var matches := Filter(rows, IdLike(id + "%"));
      assert matches[0] in matches;
      var i :| 0 <= i < |rows| && rows[i] == matches[0];
    }
  }

  lemma OnlyOneGoes(rows: seq<Row>, k: nat)
    requires DistinctRows(rows) && k < |rows|
    ensures Filter(rows, NotId(rows[k].id)) == rows[..k] + rows[k + 1..]
  {
    FilterDropsOne(rows, k, NotId(rows[k].id));
  }

  // ---- links ----

  /** Linking two live rows links them both ways, and unlinking undoes a link that was new. */
  lemma UnlinkUndoesLink(db: Db, a: Id, b: Id)
    requires (a, b) !in db.links && (b, a) !in db.links
    ensures HasId(db.rows, a) && HasId(db.rows, b) ==> Linked(db, a, b).links == db.links + {(a, b), (b, a)}
    ensures Unlinked(Linked(db, a, b), a, b) == db
  {
  }
}
