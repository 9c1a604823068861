/** What each operation of the store promises, said of the tables before and after and of the
    arguments alone, and that the functions the store is proved against keep these promises. */
module Promises {
  import opened Lists
  import opened Text
  import opened Consumers
  import opened Tables
  import opened Runs
  import opened WriteLaws
  import opened Links

  // ---- delete ----

  /** The rows whose id matches the argument, read as the start of a LIKE pattern. */
  ghost function Matching(rows: seq<Row>, id: string): set<nat> {
    set i: nat | i < |rows| && Like(id + "%", rows[i].id)
  }

  /** A live id finds its row; any other non-empty argument finds a row exactly when one alone
      matches it; the empty one finds none. */
  ghost predicate Locates(rows: seq<Row>, id: string, found: Lookup) {
    if id == "" then found == NotFound
    else if HasId(rows, id) then found == Found(id)
    else
      var n := |Matching(rows, id)|;
      if n == 0 then found == NotFound
      else if n == 1 then
        found.Found? && exists i :: 0 <= i < |rows| && Like(id + "%", rows[i].id) && rows[i].id == found.id
      else found == Ambiguous(n)
  }

  /** The row with the id is gone with its index entry, its tags and the links it is the source of;
      everything else is there as before, in order. */
  ghost predicate TakesOut(before: Db, id: Id, after: Db) {
    && after.events == before.events
    && |before.fts| == |before.rows|
    && (exists k :: 0 <= k < |before.rows| && before.rows[k].id == id
          && after.rows == before.rows[..k] + before.rows[k + 1..]
          && after.fts == before.fts[..k] + before.fts[k + 1..])
    && (forall t :: t in after.tags <==> t in before.tags && t.0 != id)
    && (forall l :: l in after.links <==> l in before.links && l.0 != id)
  }

  lemma MatchesAre(rows: seq<Row>, id: string)
    ensures |Filter(rows, IdLike(id + "%"))| == |Matching(rows, id)|
  {
    hide Like;
    FilterPositions(rows, IdLike(id + "%"));
    assert PositionsWhere(rows, IdLike(id + "%")) == Matching(rows, id);
  }

  lemma ResolveFinds(rows: seq<Row>, id: string)
    ensures Locates(rows, id, ResolveId(rows, id))
  {
    hide Like, Filter;
    MatchesAre(rows, id);
    if id != "" && !HasId(rows, id) {
      var matches := Filter(rows, IdLike(id + "%"));
      if |matches| == 1 {
        assert matches[0] in matches;
        var i :| 0 <= i < |rows| && rows[i] == matches[0];
      }
    }
  }

  lemma RowTakenOut(db: Db, k: nat)
    requires Consistent(db) && k < |db.rows|
    ensures TakesOut(db, db.rows[k].id, Removed(db, db.rows[k].id))
  {
    hide Filter, HasId, HasEvent;
    OnlyOneGoes(db.rows, k);
    IndexLoses(db.rows, k);
  }

  /** Delete keeps its promise in every consistent state. */
  lemma DeleteTakesOut(db: Db, id: string)
    requires Consistent(db)
    ensures var (after, found) := Deleted(db, id);
      && Locates(db.rows, id, found)
      && if found.Found? then TakesOut(db, found.id, after) else after == db
  {
    hide Like, Locates, TakesOut, Removed, Consistent;
    ResolveFinds(db.rows, id);
    if ResolveId(db.rows, id).Found? {
      ResolvedLive(db.rows, id);
      var k :| 0 <= k < |db.rows| && db.rows[k].id == ResolveId(db.rows, id).id;
      RowTakenOut(db, k);
    }
  }

  lemma IndexLoses(rows: seq<Row>, k: nat)
    requires DistinctRows(rows) && k < |rows|
    ensures Filter(FtsOf(rows), NotFtsId(rows[k].id)) == FtsOf(rows)[..k] + FtsOf(rows)[k + 1..]
  {
    hide Filter;
    FilterMap(rows, FtsOfRow, NotId(rows[k].id), NotFtsId(rows[k].id));
    OnlyOneGoes(rows, k);
  }

  // ---- superseding ----

  /** What the supersede check knows of the write: the id it went under and the fact itself. */
  datatype Newcomer = Newcomer(id: Id, phase: Phase, category: Category, project: string, time: int,
                               terms: seq<string>)

  /** The positions of a term list that hold one of the other terms. */
  ghost function CommonAt(terms: seq<string>, others: seq<string>): set<nat> {
    set j: nat | j < |terms| && terms[j] in others
  }

  /** No mark says that the row was replaced. */
  ghost predicate Current(m: Metadata) {
    && (m.supersededBy.Some? ==> m.supersededBy.value == Null || m.supersededBy.value == Str(""))
    && m.superseded != Some(Flag(true))
  }

  /** A processed or organized fact with at least two terms replaces every other current row of its
      phase, of its category and project where it has one, that is strictly older and shares three
      of its own terms with it. */
  ghost predicate Replaces(x: Extractors, r: Row, n: Newcomer) {
    && (n.phase == Processed || n.phase == Organized) && |n.terms| >= 2
    && r.id != n.id && r.phase == n.phase
    && (n.category != Unset ==> r.category == n.category)
    && (n.project != "" ==> r.prov.project == n.project)
    && r.createdAt * 1_000_000_000 < n.time && Current(r.metadata)
    && |CommonAt(x.terms(r.content), n.terms)| >= 3
  }

  ghost function ReplacedRows(x: Extractors, rows: seq<Row>, n: Newcomer): set<Row> {
    set r | r in rows && Replaces(x, r, n)
  }

  /** Exactly the replaced rows get the mark, beside whatever else their metadata holds. */
  ghost predicate MarksReplaced(x: Extractors, rows: seq<Row>, after: seq<Row>, n: Newcomer) {
    |after| == |rows| && forall i :: 0 <= i < |rows| ==>
      after[i] == if Replaces(x, rows[i], n)
                  then rows[i].(metadata := rows[i].metadata.(supersededBy := Some(Str(n.id))))
                  else rows[i]
  }

  function Arrives(x: Extractors, m: Memory, id: Id): Newcomer {
    Newcomer(id, m.phase, m.category, m.prov.project, m.createdAt, x.terms(m.content))
  }

  lemma {:induction false} SharedAre(terms: seq<string>, others: seq<string>)
    ensures SharedTerms(terms, others) == |CommonAt(terms, others)|
  {
    if terms != [] {
      var n := |terms| - 1;
      SharedAre(terms[..n], others);
      CommonLast(terms[..n], terms[n], others);
      assert terms == terms[..n] + [terms[n]];
    }
  }

  lemma CommonLast(terms: seq<string>, t: string, others: seq<string>)
    ensures |CommonAt(terms + [t], others)| == |CommonAt(terms, others)| + if t in others then 1 else 0
  {
    var before, after := CommonAt(terms, others), CommonAt(terms + [t], others);
    forall j: nat
      ensures j in after <==> j in before || (j == |terms| && t in others)
    {
    }
    assert after == if t in others then before + {|terms|} else before;
  }

  lemma OvertakesReplaces(x: Extractors, r: Row, m: Memory, id: Id)
    ensures IsFact(m.phase) && |x.terms(m.content)| >= 2 && Overtakes(x, r, m, id)
       <==> Replaces(x, r, Arrives(x, m, id))
  {
    hide SharedTerms, CommonAt;
    SharedAre(x.terms(r.content), x.terms(m.content));
  }

  /** The supersede check marks exactly the replaced rows. */
  lemma SupersedeMarks(x: Extractors, rows: seq<Row>, m: Memory, id: Id)
    requires DistinctIds(rows)
    ensures MarksReplaced(x, rows, SupersedeRows(rows, Overtaken(x, rows, m, id), id), Arrives(x, m, id))
  {
    hide Overtakes, Replaces;
    forall r { OvertakesReplaces(x, r, m, id); }
    forall i | 0 <= i < |rows|
      ensures rows[i].id in Overtaken(x, rows, m, id) <==> Replaces(x, rows[i], Arrives(x, m, id))
    {
      if rows[i].id in Overtaken(x, rows, m, id) {
        var r :| r in rows && Overtakes(x, r, m, id) && r.id == rows[i].id;
        var j :| 0 <= j < |rows| && rows[j] == r;
        assert i == j;
      }
      assert rows[i] in rows;
    }
  }

  // ---- tags ----

  /** The caller's tags, trimmed, then the keywords of the text. */
  function Offered(tags: seq<string>, keywords: seq<string>): seq<string> { Map(tags, Trim) + keywords }

  /** t is offered, is not empty, and nothing equal up to case and edge space is offered before it. */
  ghost predicate First(all: seq<string>, t: string) {
    exists i :: 0 <= i < |all| && all[i] == t != "" && NewKey(all, i)
  }

  ghost predicate NewKey(all: seq<string>, i: nat)
    requires i < |all|
  {
    forall j :: 0 <= j < i && all[j] != "" ==> Lower(Trim(all[j])) != Lower(Trim(all[i]))
  }

  lemma {:induction false} KeptAreFirst(all: seq<string>, t: string)
    ensures t in DropRepeats(all) <==> First(all, t)
  {
    hide Trim, Lower;
    if all != [] {
      var before, last := all[..|all| - 1], all[|all| - 1];
      assert all == before + [last];
      KeptAreFirst(before, t);
      KeysKept(before);
      FirstLast(before, last, t);
      assert last != "" && TagKey(last) !in TagKeys(DropRepeats(before)) <==> last != "" && NewKey(all, |before|);
    }
  }

  /** The kept tags carry every key there is. */
  lemma KeysKept(all: seq<string>)
    ensures forall key :: key in TagKeys(DropRepeats(all)) <==> HasKey(all, key)
  {
    DropRepeatsIs(all);
    hide TagKey;
    forall key | HasKey(all, key)
      ensures key in TagKeys(DropRepeats(all))
    {
      var j :| 0 <= j < |all| && all[j] != "" && TagKey(all[j]) == key;
      assert all[j] in all;
    }
    forall key | key in TagKeys(DropRepeats(all))
      ensures HasKey(all, key)
    {
      var t :| t in DropRepeats(all) && TagKey(t) == key;
      var j :| 0 <= j < |all| && all[j] == t;
    }
  }

  ghost predicate HasKey(all: seq<string>, key: string) {
    exists j :: 0 <= j < |all| && all[j] != "" && TagKey(all[j]) == key
  }

  lemma FirstLast(before: seq<string>, last: string, t: string)
    ensures First(before + [last], t) <==> First(before, t) || (t == last != "" && NewKey(before + [last], |before|))
  {
    hide Trim, Lower;
    var all := before + [last];
    forall i | 0 <= i < |before|
      ensures NewKey(all, i) <==> NewKey(before, i)
    {
      assert forall j :: 0 <= j <= i ==> all[j] == before[j];
    }
    if First(before, t) {
      var i :| 0 <= i < |before| && before[i] == t != "" && NewKey(before, i);
      assert all[i] == t;
    }
    if First(all, t) {
      var i :| 0 <= i < |all| && all[i] == t != "" && NewKey(all, i);
      assert i < |before| ==> before[i] == t;
    }
  }

  /** Dropping exact repeats first makes no difference. */
  lemma {:induction false} NormalizedDrop(tags: seq<string>)
    ensures DropRepeats(NormalizedTags(tags)) == DropRepeats(Map(tags, Trim))
  {
    hide Trim;
    if tags != [] {
      var before, u := tags[..|tags| - 1], Trim(tags[|tags| - 1]);
      NormalizedDrop(before);
      assert tags == before + [tags[|tags| - 1]];
      MapAppend(before, tags[|tags| - 1], Trim);
      var kept, all := NormalizedTags(before), Map(before, Trim);
      assert (all + [u])[..|all|] == all && (kept + [u])[..|kept|] == kept;
      if u in kept && u != "" {
        KeysKept(kept);
        var j :| 0 <= j < |kept| && kept[j] == u;
        assert TagKey(u) in TagKeys(DropRepeats(kept));
      }
    }
  }

  lemma {:induction false} DropSame(a: seq<string>, b: seq<string>, c: seq<string>)
    requires DropRepeats(a) == DropRepeats(b)
    ensures DropRepeats(a + c) == DropRepeats(b + c)
    decreases |c|
  {
    if c == [] {
      assert a + c == a && b + c == b;
    } else {
      var d := c[..|c| - 1];
      DropSame(a, b, d);
      assert (a + c)[..|a + c| - 1] == a + d && (b + c)[..|b + c| - 1] == b + d;
    }
  }

  /** The tags of a write are the first of each kind. */
  lemma TagsAreFirst(tags: seq<string>, keywords: seq<string>, t: string)
    ensures t in MergedTags(NormalizedTags(tags), keywords) <==> First(Offered(tags, keywords), t)
  {
    hide First;
    NormalizedDrop(tags);
    DropSame(NormalizedTags(tags), Map(tags, Trim), keywords);
    KeptAreFirst(Offered(tags, keywords), t);
  }

  // ---- ingest ----

  /** A column keeps what it holds and takes what is delivered when it is empty. */
  predicate Fills(held: string, delivered: string, now: string) { now == if held != "" then held else delivered }

  predicate FillsAll(p: Provenance, q: Provenance, now: Provenance) {
    && Fills(p.session, q.session, now.session) && Fills(p.project, q.project, now.project)
    && Fills(p.tmux, q.tmux, now.tmux) && Fills(p.message, q.message, now.message)
    && Fills(p.parent, q.parent, now.parent) && Fills(p.role, q.role, now.role)
    && Fills(p.branch, q.branch, now.branch) && Fills(p.model, q.model, now.model)
    && Fills(p.prompt, q.prompt, now.prompt)
  }

  /** The event is there once: appended under a new hash, else only its empty columns are filled. */
  ghost predicate Logs(before: seq<Event>, after: seq<Event>, e: Event) {
    if forall j :: 0 <= j < |before| ==> before[j].id != e.id then after == before + [e]
    else
      |after| == |before| && forall j :: 0 <= j < |before| ==>
        && after[j] == before[j].(prov := after[j].prov)
        && if before[j].id == e.id then FillsAll(before[j].prov, e.prov, after[j].prov)
           else after[j].prov == before[j].prov
  }

  /** An old row keeps all its columns; its empty provenance is filled if it has the hash, and it is
      marked if the new fact replaces it. */
  ghost predicate OldRow(x: Extractors, was: Row, now: Row, hash: Digest, prov: Provenance, n: Newcomer) {
    && now == was.(prov := now.prov, metadata := now.metadata)
    && (if was.hash == hash then FillsAll(was.prov, prov, now.prov) else now.prov == was.prov)
    && now.metadata == if Replaces(x, was, n) then was.metadata.(supersededBy := Some(Str(n.id))) else was.metadata
  }

  ghost predicate KnownHash(rows: seq<Row>, hash: Digest) { exists i :: 0 <= i < |rows| && rows[i].hash == hash }

  ghost predicate HasRow(rows: seq<Row>, hash: Digest, id: Id) {
    exists i :: 0 <= i < |rows| && rows[i].hash == hash && rows[i].id == id
  }

  function TextOf(req: Request): string { Trim(req.content) }

  function IdOf(req: Request, env: Env): Id { if req.id == "" then env.uuid else req.id }

  function HashOf(req: Request): Digest { if req.hash.None? then Digest(TextOf(req)) else req.hash.value }

  /** An unknown category counts as the inbox. */
  function CategoryOf(req: Request): Category {
    if req.category.Unrecognised? then InboxCategory else req.category
  }

  function TimeOf(req: Request, env: Env): int { if req.createdAt.None? then env.now else req.createdAt.value }

  function NewcomerOf(x: Extractors, req: Request, env: Env, id: Id): Newcomer {
    Newcomer(id, req.phase, CategoryOf(req), req.prov.project, TimeOf(req, env), x.terms(TextOf(req)))
  }

  /** Why a request is refused, if it is. */
  ghost predicate Refused(rows: seq<Row>, req: Request, env: Env, error: IngestError) {
    if TextOf(req) == "" then error == EmptyContent
    else if ByteLen(TextOf(req)) > 102_400 then error == ContentTooLarge
    else if req.phase.Invalid? then error == InvalidPhase
    else error == DuplicateId && !KnownHash(rows, HashOf(req)) && HasId(rows, IdOf(req, env))
  }

  /** The row of new content. */
  function NewRow(x: Extractors, req: Request, env: Env): Row {
    Row(IdOf(req, env), TextOf(req), HashOf(req), req.phase,
        if CategoryOf(req) == InboxCategory then x.categorize(TextOf(req)) else CategoryOf(req),
        req.scope, req.source, TimeOf(req, env) / 1_000_000_000, HashOf(req), req.prov, req.mask, req.metadata)
  }

  /** What an accepted write leaves under the id it returns. */
  ghost predicate Accepts(x: Extractors, before: Db, req: Request, env: Env, after: Db, id: Id) {
    var known := KnownHash(before.rows, HashOf(req));
    && Logs(before.events, after.events,
            Event(HashOf(req), TextOf(req), req.source, env.now / 1_000_000_000, req.prov))
    && (if known then HasRow(before.rows, HashOf(req), id) else id == IdOf(req, env) && !HasId(before.rows, id))
    && |after.rows| == |before.rows| + (if known then 0 else 1)
    && (forall i :: 0 <= i < |before.rows| ==>
          OldRow(x, before.rows[i], after.rows[i], HashOf(req), req.prov, NewcomerOf(x, req, env, id)))
    && (!known ==> after.rows[|before.rows|] == NewRow(x, req, env))
    && after.fts == before.fts + (if known then [] else [FtsRow(id, TextOf(req), req.scope, req.source)])
    && after.links == before.links
    && (forall t :: t in after.tags <==>
          t in before.tags || (t.0 == id && First(Offered(req.tags, x.keywords(TextOf(req))), t.1)))
  }

  /** The whole promise of a write. */
  ghost predicate Writes(x: Extractors, before: Db, req: Request, env: Env, after: Db, r: Result<Id, IngestError>) {
    match r
    case Err(error) => after == before && Refused(before.rows, req, env, error)
    case Ok(id) =>
      && TextOf(req) != "" && ByteLen(TextOf(req)) <= 102_400 && !req.phase.Invalid?
      && Accepts(x, before, req, env, after, id)
  }

  lemma BackfillFills(p: Provenance, q: Provenance)
    ensures FillsAll(p, q, Backfill(p, q))
  {
  }

  lemma LogsEvent(events: seq<Event>, m: Memory, now: int)
    ensures Logs(events, LogAfter(events, m, now), EventOf(m, now))
  {
    hide FillsAll, Backfill;
    forall p: Provenance { BackfillFills(p, m.prov); }
    BackfillLaws(m.prov, m.prov, m.prov);
    if forall j :: 0 <= j < |events| ==> events[j].id != m.hash {
      assert !HasEvent(events, m.hash);
    } else {
      assert HasEvent(events, m.hash);
    }
  }

  /** Rows with the hash take the empty columns that are delivered. */
  function Filled(r: Row, m: Memory): Row {
    if r.hash == m.hash then r.(prov := Backfill(r.prov, m.prov)) else r
  }

  lemma KnownRow(db: Db, m: Memory, id: Id)
    requires Consistent(db) && FindByHash(db.rows, m.hash) == Some(id)
    ensures HasRow(db.rows, m.hash, id)
    ensures var after := BackfillRows(db.rows, id, m.prov);
      |after| == |db.rows| && forall i :: 0 <= i < |db.rows| ==> after[i] == Filled(db.rows[i], m)
  {
    RowsDistinct(db);
    hide Consistent, Backfill, BackfillRows;
    BackfilledAt(db.rows, m.hash, id, m.prov);
  }

  /** The transaction: the row of a known hash is filled, a new row goes to the end. */
  lemma InsertPutsRow(x: Extractors, db: Db, m: Memory, now: int)
    requires Consistent(db) && Inserted(x, db, m, now).Some?
    ensures var ((after, id), known) := (Inserted(x, db, m, now).value, KnownHash(db.rows, m.hash));
      && |after.rows| == |db.rows| + (if known then 0 else 1)
      && (if known then HasRow(db.rows, m.hash, id) else id == m.id && !HasId(db.rows, id))
      && (forall i :: 0 <= i < |db.rows| ==> after.rows[i] == Filled(db.rows[i], m))
      && (!known ==> after.rows[|db.rows|] == RowOf(x, m))
      && after.fts == db.fts + (if known then [] else [FtsOfRow(RowOf(x, m))])
      && after.links == db.links && after.events == LogAfter(db.events, m, now)
      && after.tags == db.tags + TagRows(id, MergedTags(m.tags, x.keywords(m.content)))
  {
    hide Consistent, BackfillEvents, AppendEvent, MergedTags, Backfill, RowOf, BackfillRows, TagRows, HasRow,
         FindByHash;
    if FindByHash(db.rows, m.hash).Some? {
      KnownRow(db, m, FindByHash(db.rows, m.hash).value);
    }
  }

  lemma InsertFails(x: Extractors, db: Db, m: Memory, now: int)
    ensures Inserted(x, db, m, now).None? <==> !KnownHash(db.rows, m.hash) && HasId(db.rows, m.id)
  {
    hide BackfillEvents, AppendEvent, MergedTags, RowOf, BackfillRows, TagRows;
  }

  /** The tables after a committed write, in the words of the promise. */
  lemma StorePutsRow(x: Extractors, db: Db, m: Memory, now: int)
    requires Consistent(db) && Stored(x, db, m, now).1.Ok?
    ensures var ((after, r), known) := (Stored(x, db, m, now), KnownHash(db.rows, m.hash));
      && |after.rows| == |db.rows| + (if known then 0 else 1)
      && (if known then HasRow(db.rows, m.hash, r.value) else r.value == m.id && !HasId(db.rows, r.value))
      && (forall i :: 0 <= i < |db.rows| ==>
            OldRow(x, db.rows[i], after.rows[i], m.hash, m.prov, Arrives(x, m, r.value)))
      && (!known ==> after.rows[|db.rows|] == RowOf(x, m))
  {
    hide Inserted, Replaces, Overtaken, SupersedeRows, Backfill, FillsAll, RowOf, KnownHash, HasRow, HasId, Consistent;
    var (middle, id) := Inserted(x, db, m, now).value;
    InsertPutsRow(x, db, m, now);
    InsertKeeps(x, db, m, now);
    RowsDistinct(middle);
    SupersedeMarks(x, middle.rows, m, id);
    RowIds(x, m);
    forall i | 0 <= i < |db.rows|
      ensures OldRow(x, db.rows[i], Stored(x, db, m, now).0.rows[i], m.hash, m.prov, Arrives(x, m, id))
    {
      BackfillFills(db.rows[i].prov, m.prov);
      FilledReplaced(x, db.rows, m, id, i);
    }
  }

  lemma RowIds(x: Extractors, m: Memory)
    ensures !Replaces(x, RowOf(x, m), Arrives(x, m, m.id))
  {
  }

  /** Filling provenance changes nothing for the supersede check: only the write's own row is filled. */
  lemma FilledReplaced(x: Extractors, rows: seq<Row>, m: Memory, id: Id, i: nat)
    requires DistinctRows(rows) && i < |rows| && (KnownHash(rows, m.hash) ==> HasRow(rows, m.hash, id))
    ensures Replaces(x, Filled(rows[i], m), Arrives(x, m, id)) <==> Replaces(x, rows[i], Arrives(x, m, id))
  {
    hide CommonAt, Backfill;
    if rows[i].hash == m.hash {
      var k :| 0 <= k < |rows| && rows[k].hash == m.hash && rows[k].id == id;
      assert k == i;
    }
  }

  lemma StoreRest(x: Extractors, db: Db, m: Memory, now: int)
    requires Consistent(db) && Stored(x, db, m, now).1.Ok?
    ensures var (after, r) := Stored(x, db, m, now);
      && after.fts == db.fts + (if KnownHash(db.rows, m.hash) then [] else [FtsOfRow(RowOf(x, m))])
      && after.links == db.links && after.events == LogAfter(db.events, m, now)
      && after.tags == db.tags + TagRows(r.value, MergedTags(m.tags, x.keywords(m.content)))
  {
    hide Inserted, Overtaken, SupersedeRows, Consistent, MergedTags, LogAfter, KnownHash;
    InsertPutsRow(x, db, m, now);
  }

  /** Every write keeps its promise in every consistent state. */
  lemma IngestWrites(x: Extractors, db: Db, req: Request, env: Env)
    requires Consistent(db)
    ensures Writes(x, db, req, env, Ingested(x, db, req, env).0, Ingested(x, db, req, env).1)
  {
    hide Trim, NormalizedTags, ByteLen, KnownHash, HasId, HasRow, OldRow, Logs, First, MergedTags, LogAfter, Consistent,
         Stored;
    if Gate(req, env).Ok? {
      var m := Gate(req, env).value;
      if Stored(x, db, m, env.now).1.Ok? {
        StorePutsRow(x, db, m, env.now);
        StoreRest(x, db, m, env.now);
        LogsEvent(db.events, m, env.now);
        forall t { TagsAreFirst(req.tags, x.keywords(m.content), t); }
      } else {
        StoreFails(x, db, m, env.now);
      }
    }
  }

  lemma StoreFails(x: Extractors, db: Db, m: Memory, now: int)
    requires Stored(x, db, m, now).1.Err?
    ensures Stored(x, db, m, now) == (db, Err(DuplicateId))
    ensures !KnownHash(db.rows, m.hash) && HasId(db.rows, m.id)
  {
    hide Inserted, Overtaken;
    InsertFails(x, db, m, now);
  }

  // ---- links ----

  /** r is listed before s: it is newer, or equally old and earlier in the table. */
  ghost predicate Sooner(rows: seq<Row>, r: Row, s: Row) {
    r.createdAt > s.createdAt || (r.createdAt == s.createdAt && Precedes(rows, r, s))
  }

  /** A title means the row that carries it and is listed last. */
  ghost predicate MeantBy(x: Extractors, rows: seq<Row>, title: string, r: Row) {
    && r in rows && HasTitle(x, r, title)
    && forall s :: s in rows && HasTitle(x, s, title) && s != r ==> Sooner(rows, s, r)
  }

  /** A wiki-link in r's text means the row with id b, another one. */
  ghost predicate PointsTo(x: Extractors, rows: seq<Row>, r: Row, b: Id) {
    exists w, t :: w in x.wikiLinks(r.content) && MeantBy(x, rows, Lower(w), t) && t.id == b != r.id
  }

  /** r's text asks for the link, from r or back to it. */
  ghost predicate AsksFor(x: Extractors, rows: seq<Row>, r: Row, l: (Id, Id)) {
    (r.id == l.0 && PointsTo(x, rows, r, l.1)) || (r.id == l.1 && PointsTo(x, rows, r, l.0))
  }

  /** r asks for a link that is not there and that no row listed before r asks for. */
  ghost predicate BringsNew(x: Extractors, rows: seq<Row>, links: set<(Id, Id)>, r: Row) {
    exists l: (Id, Id) :: AsksFor(x, rows, r, l) && l !in links
      && forall s :: s in rows && Sooner(rows, s, r) ==> !AsksFor(x, rows, s, l)
  }

  ghost function Bringers(x: Extractors, rows: seq<Row>, links: set<(Id, Id)>): set<Row> {
    set r | r in rows && BringsNew(x, rows, links, r)
  }

  /** All links stay, those the texts ask for are added, and the count is of the rows that bring one. */
  ghost predicate Resolves(x: Extractors, rows: seq<Row>, before: set<(Id, Id)>, after: set<(Id, Id)>, count: int) {
    && (forall l :: l in after <==> l in before || exists r :: r in rows && AsksFor(x, rows, r, l))
    && count == |Bringers(x, rows, before)|
  }

  lemma ListingOrder(rows: seq<Row>, r: Row, s: Row)
    requires NoRepeats(rows)
    ensures Precedes(Listing(rows), r, s) <==> r in rows && s in rows && Sooner(rows, r, s)
  {
    StableOrder(rows, CreatedAt, r, s);
    assert CreatedAt(r) > CreatedAt(s) <==> r.createdAt > s.createdAt;
    assert CreatedAt(r) == CreatedAt(s) <==> r.createdAt == s.createdAt;
  }

  lemma ListingNoRepeats(rows: seq<Row>)
    requires NoRepeats(rows)
    ensures NoRepeats(Listing(rows))
  {
    SortNoRepeats(rows, CreatedAt);
  }

  lemma MeansIsMeant(x: Extractors, rows: seq<Row>, title: string, t: Row)
    requires NoRepeats(rows)
    ensures Means(x, Listing(rows), title, t) <==> MeantBy(x, rows, title, t)
  {
    hide Sooner, HasTitle;
    var listing := Listing(rows);
    ListingNoRepeats(rows);
    forall s { ListingOrder(rows, s, t); }
    if Means(x, listing, title, t) {
      var k :| 0 <= k < |listing| && listing[k] == t && HasTitle(x, t, title)
        && forall j :: k < j < |listing| ==> !HasTitle(x, listing[j], title);
      assert t in listing;
      forall s | s in rows && HasTitle(x, s, title) && s != t
        ensures Sooner(rows, s, t)
      {
        assert s in listing;
        var j :| 0 <= j < |listing| && listing[j] == s;
        assert j < k;
        assert Precedes(listing, s, t);
      }
    }
    if MeantBy(x, rows, title, t) {
      assert t in listing;
      var k :| 0 <= k < |listing| && listing[k] == t;
      forall j | k < j < |listing|
        ensures !HasTitle(x, listing[j], title)
      {
        assert listing[j] in listing && listing[j] != t;
      }
    }
  }

  lemma LinksAsked(x: Extractors, rows: seq<Row>, r: Row, l: (Id, Id))
    requires NoRepeats(rows)
    ensures l in LinksOf(x, TitleIndex(x, Listing(rows)), r) <==> AsksFor(x, rows, r, l)
  {
    hide Listing, MeantBy, Means, LinksOf, TitleIndex;
    LinksOfAre(x, Listing(rows), r, l.0, l.1);
    forall w, t { MeansIsMeant(x, rows, Lower(w), t); }
    assert l == (l.0, l.1);
  }

  /** The rows of a listing that ask for a link none before them asks for. */
  ghost function BringersIn(x: Extractors, index: map<string, Row>, listing: seq<Row>, links: set<(Id, Id)>): set<Row> {
    set r | r in listing && BringsIn(x, index, listing, links, r)
  }

  ghost predicate BringsIn(x: Extractors, index: map<string, Row>, listing: seq<Row>, links: set<(Id, Id)>, r: Row) {
    exists l :: l in LinksOf(x, index, r) && l !in links
      && forall s :: Precedes(listing, s, r) ==> l !in LinksOf(x, index, s)
  }

  lemma {:induction false} CountsBringers(x: Extractors, index: map<string, Row>, listing: seq<Row>,
                                          links: set<(Id, Id)>)
    requires NoRepeats(listing)
    ensures ResolvedFrom(x, index, listing, links).1 == |BringersIn(x, index, listing, links)|
  {
    hide LinksOf;
    if listing != [] {
      var before, last := listing[..|listing| - 1], listing[|listing| - 1];
      assert listing == before + [last];
      assert last !in before;
      CountsBringers(x, index, before, links);
      ResolvedFromAdds(x, index, before, links);
      BringersLast(x, index, before, last, links);
    }
  }

  lemma BringsAsBefore(x: Extractors, index: map<string, Row>, before: seq<Row>, last: Row, links: set<(Id, Id)>,
                       r: Row)
    requires r in before && last !in before
    ensures BringsIn(x, index, before + [last], links, r) <==> BringsIn(x, index, before, links, r)
  {
    hide LinksOf, Precedes;
    forall s { PrecedesLast(before, last, s, r); }
  }

  lemma LastBrings(x: Extractors, index: map<string, Row>, before: seq<Row>, last: Row, links: set<(Id, Id)>)
    requires last !in before
    ensures BringsIn(x, index, before + [last], links, last)
       <==> !(LinksOf(x, index, last) <= links + Asked(x, index, before))
  {
    hide LinksOf, Precedes;
    forall s
      ensures Precedes(before + [last], s, last) <==> s in before
    {
      PrecedesLast(before, last, s, last);
      NotBeforeItself(before, s, last);
    }
  }

  lemma NotBeforeItself(rows: seq<Row>, r: Row, last: Row)
    requires last !in rows
    ensures !Precedes(rows, r, last)
  {
  }

  lemma BringersLast(x: Extractors, index: map<string, Row>, before: seq<Row>, last: Row, links: set<(Id, Id)>)
    requires last !in before
    ensures |BringersIn(x, index, before + [last], links)|
         == |BringersIn(x, index, before, links)|
            + if LinksOf(x, index, last) <= links + Asked(x, index, before) then 0 else 1
  {
    hide LinksOf, BringsIn, Asked, Precedes;
    var listing := before + [last];
    var bringers, more := BringersIn(x, index, before, links), BringersIn(x, index, listing, links);
    forall r | r in before { BringsAsBefore(x, index, before, last, links, r); }
    LastBrings(x, index, before, last, links);
    forall r
      ensures r in more <==> r in bringers || (r == last && BringsIn(x, index, listing, links, last))
    {
    }
    hide BringersIn;
    assert more == bringers + if BringsIn(x, index, listing, links, last) then {last} else {};
  }

  /** ResolveBacklinks keeps its promise on every table without repeated rows. */
  lemma ResolveKeepsPromise(x: Extractors, db: Db)
    requires NoRepeats(db.rows)
    ensures var (after, count) := Resolved(x, db);
      after == db.(links := after.links) && Resolves(x, db.rows, db.links, after.links, count)
  {
    hide LinksOf, AsksFor, TitleIndex, Sooner;
    var listing := Listing(db.rows);
    var index := TitleIndex(x, listing);
    ResolvedFromAdds(x, index, listing, db.links);
    ListingNoRepeats(db.rows);
    CountsBringers(x, index, listing, db.links);
    forall r, l { LinksAsked(x, db.rows, r, l); }
    forall s, r { ListingOrder(db.rows, s, r); }
    hide Listing;
    forall r | r in db.rows
      ensures BringsIn(x, index, listing, db.links, r) <==> BringsNew(x, db.rows, db.links, r)
    {
    }
    assert BringersIn(x, index, listing, db.links) == Bringers(x, db.rows, db.links);
  }

  // ---- reindexing ----

  /** The index mirrors the rows, the links are those the texts ask for and no other, every keyword of
      every row is a tag beside the tags there were, and the counts are of rows, rows that bring a
      link, and tags that were not there. */
  ghost predicate Reindexes(x: Extractors, before: Db, after: Db, st: Stats) {
    && after.events == before.events && after.rows == before.rows
    && |after.fts| == |before.rows|
    && (forall i :: 0 <= i < |before.rows| ==>
          var r := before.rows[i]; after.fts[i] == FtsRow(r.id, r.content, r.scope, r.source))
    && Resolves(x, before.rows, {}, after.links, st.links)
    && (forall t :: t in after.tags <==>
          t in before.tags || exists r :: r in before.rows && r.id == t.0 && t.1 in x.keywords(r.content))
    && st == Stats(0, 0, 0, |before.rows|, st.links, |after.tags - before.tags|)
  }

  lemma AddedTags(before: set<(Id, string)>, more: set<(Id, string)>)
    ensures |before + more| - |before| == |(before + more) - before|
  {
    var added := (before + more) - before;
    assert before + more == before + added;
  }

  lemma IndexMirrors(rows: seq<Row>)
    ensures |FtsOf(rows)| == |rows|
    ensures forall i :: 0 <= i < |rows| ==>
      var r := rows[i]; FtsOf(rows)[i] == FtsRow(r.id, r.content, r.scope, r.source)
  {
    forall i | 0 <= i < |rows|
      ensures FtsOf(rows)[i] == FtsOfRow(rows[i])
    {
    }
  }

  lemma KeywordTagsAre(x: Extractors, rows: seq<Row>, t: (Id, string))
    ensures t in KeywordTags(x, rows) <==> exists r :: r in rows && r.id == t.0 && t.1 in x.keywords(r.content)
  {
    if r :| r in rows && r.id == t.0 && t.1 in x.keywords(r.content) {
      assert t == (r.id, t.1);
    }
  }

  /** RebuildIndexes keeps its promise on every table without repeated rows. */
  lemma ReindexKeepsPromise(x: Extractors, db: Db)
    requires NoRepeats(db.rows)
    ensures Reindexes(x, db, Reindexed(x, db).0, Reindexed(x, db).1)
  {
    hide Resolved, Resolves, KeywordTags, FtsOf;
    IndexMirrors(db.rows);
    ResolveKeepsPromise(x, db.(fts := FtsOf(db.rows), links := {}));
    AddedTags(db.tags, KeywordTags(x, db.rows));
    forall t { KeywordTagsAre(x, db.rows, t); }
  }

  lemma RowsDiffer(db: Db)
    requires Consistent(db)
    ensures NoRepeats(db.rows) && DistinctIds(db.rows)
  {
  }

  // ---- marking ----

  /** The bit of each pipeline stage, by the name it goes by. */
  function BitNamed(name: string): bv64 {
    match name
    case "fact-processor" => 1
    case "consolidate-llm" => 2
    case "enrich-tags" => 4
    case "process-cmd" => 8
    case "entity-extract" => 16
    case "session-digest" => 32
    case _ => 0
  }

  /** The row with the id has the bit of the named stage added, and nothing else changes. */
  ghost predicate Marks(before: seq<Row>, after: seq<Row>, id: string, name: string) {
    |after| == |before| && forall i :: 0 <= i < |before| ==>
      after[i] == if before[i].id == id then before[i].(mask := before[i].mask | BitNamed(name)) else before[i]
  }

  lemma MarkKeepsPromise(rows: seq<Row>, id: string, name: string)
    ensures Marks(rows, MarkRows(rows, id, ConsumerByName(name)), id, name)
  {
    hide Marked, Bit, ConsumerByName, BitNamed;
    NamedBit(name);
    forall mask { MarkedIsOr(mask, ConsumerByName(name)); }
  }

  lemma NamedBit(name: string)
    ensures Bit(ConsumerByName(name)) == BitNamed(name)
  {
  }
}
