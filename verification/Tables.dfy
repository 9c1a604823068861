/** The tables of the memory database, and what each statement of the write path does to them. */
module Tables {
  import opened Lists
  import opened Text
  import opened Consumers

  datatype Option<+T> = None | Some(value: T)

  /** Row ids are never empty: the store generates one when the caller gives none. */
  type Id = s: string | s != "" witness "0"

  /** A SHA-256 content hash, idealised as collision free: the text it was taken of. */
  datatype Digest = Digest(of: string)

  function HashContent(content: string): Digest { Digest(content) }

  datatype Provenance = Provenance(
    session: string, project: string, tmux: string, message: string, parent: string,
    role: string, branch: string, model: string, prompt: string)

  const NO_PROVENANCE := Provenance("", "", "", "", "", "", "", "", "")

  /** CASE WHEN col = '' AND new != '' THEN new ELSE col END. */
  function FirstNonEmpty(col: string, val: string): string {
    if col == "" && val != "" then val else col
  }

  function Backfill(p: Provenance, q: Provenance): Provenance {
    Provenance(FirstNonEmpty(p.session, q.session), FirstNonEmpty(p.project, q.project),
               FirstNonEmpty(p.tmux, q.tmux), FirstNonEmpty(p.message, q.message),
               FirstNonEmpty(p.parent, q.parent), FirstNonEmpty(p.role, q.role),
               FirstNonEmpty(p.branch, q.branch), FirstNonEmpty(p.model, q.model),
               FirstNonEmpty(p.prompt, q.prompt))
  }

  /** A JSON metadata value, as far as the supersede test looks at it. */
  datatype Json = Null | Str(s: string) | Flag(b: bool) | Other

  /** The metadata object: the two keys the store itself reads, and the rest. */
  datatype Metadata = Metadata(supersededBy: Option<Json>, superseded: Option<Json>, rest: map<string, Json>)

  const NO_METADATA := Metadata(None, None, map[])

  predicate IsSuperseded(m: Metadata) {
    (m.supersededBy.Some? && m.supersededBy.value != Null && m.supersededBy.value != Str(""))
    || m.superseded == Some(Flag(true))
  }

  datatype Phase = Inbox | Processed | Organized | Invalid(name: string)

  datatype Category =
    | Soul | Character | People | Project | Date | Knowledge | Feedback | Preferences | Decisions
    | Lessons | Habits | Skills | Capture | Proposals | Evidence | InboxCategory | Reminders
    | Unset | Unrecognised(name: string)

  /** raw_entries: the append-only event log, in rowid order. */
  datatype Event = Event(id: Digest, content: string, source: string, ingestedAt: int, prov: Provenance)

  /** memories, in rowid order. Times are whole seconds, as RFC 3339 text keeps them. */
  datatype Row = Row(
    id: Id, content: string, hash: Digest, phase: Phase, category: Category, scope: string,
    source: string, createdAt: int, rawEntry: Digest, prov: Provenance, mask: bv64, metadata: Metadata)

  datatype FtsRow = FtsRow(id: Id, content: string, scope: string, source: string)

  datatype Db = Db(
    events: seq<Event>, rows: seq<Row>, tags: set<(Id, string)>, links: set<(Id, Id)>, fts: seq<FtsRow>)

  const EMPTY_DB := Db([], [], {}, {}, [])

  /** The deterministic text functions the write path calls. */
  datatype Extractors = Extractors(
    keywords: string -> seq<string>,    // ExtractKeywords
    categorize: string -> Category,     // CategorizeContent
    terms: string -> seq<string>,       // extractTermsFromContent
    wikiLinks: string -> seq<string>,   // ExtractWikiLinks
    title: string -> string,            // titleFromContent
    noise: string -> bool)              // isNoiseEvent

  const NANOS := 1_000_000_000
  const MAX_CONTENT_LEN := 100 * 1024

  predicate IsValidCategory(c: Category) { !c.Unset? && !c.Unrecognised? }

  predicate IsFact(phase: Phase) { phase == Processed || phase == Organized }

  // ---- the command gate ----

  /** What a caller hands to IngestMemory; times are nanoseconds. */
  datatype Request = Request(
    id: string, content: string, hash: Option<Digest>, phase: Phase, category: Category, scope: string,
    tags: seq<string>, source: string, createdAt: Option<int>, prov: Provenance, mask: bv64, metadata: Metadata)

  /** The clock reading and the generated uuid of one call. */
  datatype Env = Env(now: int, uuid: Id)

  datatype Memory = Memory(
    id: Id, content: string, hash: Digest, phase: Phase, category: Category, scope: string,
    tags: seq<string>, source: string, createdAt: int, prov: Provenance, mask: bv64, metadata: Metadata)

  datatype IngestError = EmptyContent | ContentTooLarge | InvalidPhase | DuplicateId

  datatype Result<+T, +E> = Ok(value: T) | Err(error: E)

  /** Trims, drops empties and later duplicates. */
  function NormalizedTags(tags: seq<string>): seq<string> {
    if tags == [] then []
    else
      var before, t := NormalizedTags(tags[..|tags| - 1]), Trim(tags[|tags| - 1]);
      if t == "" || t in before then before else before + [t]
  }

  function Gate(req: Request, env: Env): Result<Memory, IngestError> {
    var content := Trim(req.content);
    if content == "" then Err(EmptyContent)
    else if ByteLen(content) > MAX_CONTENT_LEN then Err(ContentTooLarge)
    else if req.phase.Invalid? then Err(InvalidPhase)
    else
      var category := if req.category.Unrecognised? then InboxCategory else req.category;
      Ok(Memory(
        if req.id == "" then env.uuid else req.id, content,
        if req.hash.None? then HashContent(content) else req.hash.value,
        req.phase, category, req.scope, NormalizedTags(req.tags), req.source,
        if req.createdAt.None? then env.now else req.createdAt.value, req.prov, req.mask, req.metadata))
  }

  // ---- raw_entries ----

  predicate HasEvent(events: seq<Event>, id: Digest) {
    exists i :: 0 <= i < |events| && events[i].id == id
  }

  /** INSERT OR IGNORE keyed by the hash. */
  function AppendEvent(events: seq<Event>, e: Event): seq<Event> {
    if HasEvent(events, e.id) then events else events + [e]
  }

  /** UPDATE raw_entries SET the nine provenance columns WHERE id = ?. */
  function BackfillEvents(events: seq<Event>, id: Digest, p: Provenance): seq<Event> {
    seq(|events|, i requires 0 <= i < |events| =>
      if events[i].id == id then events[i].(prov := Backfill(events[i].prov, p)) else events[i])
  }

  function EventOf(m: Memory, now: int): Event {
    Event(m.hash, m.content, m.source, now / NANOS, m.prov)
  }

  // ---- memories ----

  /** The primary key of memories. */
  ghost predicate DistinctIds(rows: seq<Row>) {
    forall i, j :: 0 <= i < j < |rows| ==> rows[i].id != rows[j].id
  }

  predicate HasId(rows: seq<Row>, id: string) {
    exists i :: 0 <= i < |rows| && rows[i].id == id
  }

  /** SELECT id FROM memories WHERE content_hash = ? LIMIT 1. */
  function FindByHash(rows: seq<Row>, hash: Digest): (r: Option<Id>)
    ensures r.None? <==> forall i :: 0 <= i < |rows| ==> rows[i].hash != hash
    ensures r.Some? ==> exists i :: 0 <= i < |rows| && rows[i].hash == hash && rows[i].id == r.value
  {
    if rows == [] then None
    else if rows[0].hash == hash then Some(rows[0].id)
    else FindByHash(rows[1..], hash)
  }

  function BackfillRows(rows: seq<Row>, id: Id, p: Provenance): seq<Row> {
    seq(|rows|, i requires 0 <= i < |rows| =>
      if rows[i].id == id then rows[i].(prov := Backfill(rows[i].prov, p)) else rows[i])
  }

  function MarkRows(rows: seq<Row>, id: string, c: Consumer): seq<Row> {
    seq(|rows|, i requires 0 <= i < |rows| =>
      if rows[i].id == id then rows[i].(mask := Marked(rows[i].mask, c)) else rows[i])
  }

  /** MarkSuperseded: the patch {superseded_by: newId} wins over the old metadata. */
  function SupersedeRow(r: Row, newId: Id): Row {
    r.(metadata := r.metadata.(supersededBy := Some(Str(newId))))
  }

  function SupersedeRows(rows: seq<Row>, ids: set<Id>, newId: Id): seq<Row> {
    seq(|rows|, i requires 0 <= i < |rows| =>
      if rows[i].id in ids then SupersedeRow(rows[i], newId) else rows[i])
  }

  function RowOf(x: Extractors, m: Memory): Row {
    Row(m.id, m.content, m.hash, m.phase, if m.category == InboxCategory then x.categorize(m.content) else m.category,
        m.scope, m.source, m.createdAt / NANOS, m.hash, m.prov, m.mask, m.metadata)
  }

  function FtsOfRow(r: Row): FtsRow { FtsRow(r.id, r.content, r.scope, r.source) }

  /** What a full rebuild of the index would contain. */
  function FtsOf(rows: seq<Row>): seq<FtsRow> { Map(rows, FtsOfRow) }

  function CreatedAt(r: Row): real { r.createdAt as real }

  /** SELECT ... ORDER BY created_at DESC, ties in row order. */
  function Listing(rows: seq<Row>): seq<Row> { StableSort(rows, CreatedAt) }

  // ---- tags ----

  /** Caller tags first, then keywords; later ones equal up to case are dropped. */
  function MergedTags(existing: seq<string>, extra: seq<string>): seq<string> {
    DropRepeats(existing + extra)
  }

  function DropRepeats(tags: seq<string>): seq<string> {
    if tags == [] then [] else KeepNew(DropRepeats(tags[..|tags| - 1]), tags[|tags| - 1])
  }

  function KeepNew(tags: seq<string>, t: string): seq<string> {
    if t == "" || TagKey(t) in TagKeys(tags) then tags else tags + [t]
  }

  function TagKey(t: string): string { Lower(Trim(t)) }

  function TagKeys(tags: seq<string>): set<string> { set t | t in tags :: TagKey(t) }

  function TagRows(id: Id, tags: seq<string>): set<(Id, string)> {
    set t | t in tags :: (id, t)
  }

  // ---- the write path ----

  /** The transaction of InsertMemory: the new tables and the id the memory ends up under, or
      None when the primary key of memories rejects the row and everything rolls back. */
  function Inserted(x: Extractors, db: Db, m: Memory, now: int): Option<(Db, Id)> {
    var events := BackfillEvents(AppendEvent(db.events, EventOf(m, now)), m.hash, m.prov);
    var tags := MergedTags(m.tags, x.keywords(m.content));
    match FindByHash(db.rows, m.hash)
    case Some(id) =>
      Some((Db(events, BackfillRows(db.rows, id, m.prov), db.tags + TagRows(id, tags), db.links, db.fts), id))
    case None =>
      if HasId(db.rows, m.id) then None
      else
        var row := RowOf(x, m);
        Some((Db(events, db.rows + [row], db.tags + TagRows(m.id, tags), db.links, db.fts + [FtsOfRow(row)]), m.id))
  }

  /** The rows List returns for the supersede check. */
  predicate SameTopic(r: Row, m: Memory) {
    r.phase == m.phase && (m.category == Unset || r.category == m.category)
    && (m.prov.project == "" || r.prov.project == m.prov.project)
  }

  function SharedTerms(terms: seq<string>, newTerms: seq<string>): nat {
    if terms == [] then 0
    else SharedTerms(terms[..|terms| - 1], newTerms) + (if terms[|terms| - 1] in newTerms then 1 else 0)
  }

  /** Whether a write of m under the given id makes row r obsolete. */
  predicate Overtakes(x: Extractors, r: Row, m: Memory, id: Id) {
    SameTopic(r, m) && r.id != id && r.createdAt * NANOS < m.createdAt && !IsSuperseded(r.metadata)
    && SharedTerms(x.terms(r.content), x.terms(m.content)) >= 3
  }

  /** The ids CheckAndSupersede marks. */
  function Overtaken(x: Extractors, rows: seq<Row>, m: Memory, id: Id): set<Id> {
    if !IsFact(m.phase) || |x.terms(m.content)| < 2 then {} else OvertakenIn(x, rows, m, id)
  }

  function OvertakenIn(x: Extractors, rows: seq<Row>, m: Memory, id: Id): set<Id> {
    set r | r in rows && Overtakes(x, r, m, id) :: r.id
  }

  /** The transaction, then the supersede check. */
  function Stored(x: Extractors, db: Db, m: Memory, now: int): (Db, Result<Id, IngestError>) {
    match Inserted(x, db, m, now)
    case None => (db, Err(DuplicateId))
    case Some((db', id)) =>
      (db'.(rows := SupersedeRows(db'.rows, Overtaken(x, db'.rows, m, id), id)), Ok(id))
  }

  function Ingested(x: Extractors, db: Db, req: Request, env: Env): (Db, Result<Id, IngestError>) {
    match Gate(req, env)
    case Err(e) => (db, Err(e))
    case Ok(m) => Stored(x, db, m, env.now)
  }

  // ---- delete ----

  datatype Lookup = Found(id: Id) | NotFound | Ambiguous(count: nat)

  function IdLike(pattern: string): Row -> bool { (r: Row) => Like(pattern, r.id) }

  function NotId(id: Id): Row -> bool { (r: Row) => r.id != id }

  function NotFtsId(id: Id): FtsRow -> bool { (r: FtsRow) => r.id != id }

  /** A full id, or a prefix that matches exactly one row. */
  function ResolveId(rows: seq<Row>, id: string): Lookup {
    if id == "" then NotFound
    else if HasId(rows, id) then Found(id)
    else
      var matches := Filter(rows, IdLike(id + "%"));
      if matches == [] then NotFound
      else if |matches| == 1 then Found(matches[0].id)
      else Ambiguous(|matches|)
  }

  /** The row, its index entry, its tags and the links it is the source of. */
  function Removed(db: Db, id: Id): Db {
    db.(rows := Filter(db.rows, NotId(id)), fts := Filter(db.fts, NotFtsId(id)),
        tags := (set t | t in db.tags && t.0 != id), links := (set l | l in db.links && l.0 != id))
  }

  function Deleted(db: Db, id: string): (Db, Lookup) {
    var found := ResolveId(db.rows, id);
    (if found.Found? then Removed(db, found.id) else db, found)
  }

  // ---- links ----

  function Linked(db: Db, a: string, b: string): Db {
    if HasId(db.rows, a) && HasId(db.rows, b) then db.(links := db.links + {(a, b), (b, a)}) else db
  }

  function Unlinked(db: Db, a: string, b: string): Db {
    if HasId(db.rows, a) && HasId(db.rows, b) then db.(links := db.links - {(a, b), (b, a)}) else db
  }

  /** Folded title to row; of several rows with one title the last listed wins. */
  function TitleIndex(x: Extractors, listing: seq<Row>): map<string, Row> {
    if listing == [] then map[]
    else
      var r := listing[|listing| - 1];
      var index := TitleIndex(x, listing[..|listing| - 1]);
      if x.title(r.content) == "" then index else index[Lower(x.title(r.content)) := r]
  }

  /** The links one row's wiki-links ask for, both ways. */
  function LinksOf(x: Extractors, index: map<string, Row>, r: Row): set<(Id, Id)> {
    LinksTo(index, r, x.wikiLinks(r.content))
  }

  function LinksTo(index: map<string, Row>, r: Row, wiki: seq<string>): set<(Id, Id)> {
    if wiki == [] then {}
    else
      var w := Lower(wiki[|wiki| - 1]);
      LinksTo(index, r, wiki[..|wiki| - 1]) +
      (if w in index && index[w].id != r.id then {(r.id, index[w].id), (index[w].id, r.id)} else {})
  }

  /** The links ResolveBacklinks leaves, and how many rows added one. */
  function ResolvedFrom(x: Extractors, index: map<string, Row>, listing: seq<Row>, links: set<(Id, Id)>)
    : (set<(Id, Id)>, nat)
  {
    if listing == [] then (links, 0)
    else
      var before := ResolvedFrom(x, index, listing[..|listing| - 1], links);
      var asked := LinksOf(x, index, listing[|listing| - 1]);
      (before.0 + asked, if asked <= before.0 then before.1 else before.1 + 1)
  }

  function Resolved(x: Extractors, db: Db): (Db, nat) {
    var listing := Listing(db.rows);
    var resolved := ResolvedFrom(x, TitleIndex(x, listing), listing, db.links);
    (db.(links := resolved.0), resolved.1)
  }

  // ---- rebuilds ----

  /** INSERT OR IGNORE of every keyword of every row. */
  function KeywordTags(x: Extractors, rows: seq<Row>): set<(Id, string)> {
    set r, t | r in rows && t in x.keywords(r.content) :: (r.id, t)
  }

  datatype Stats = Stats(events: int, rebuilt: int, skipped: int, ftsRows: int, links: int, tagsAdded: int)

  function Reindexed(x: Extractors, db: Db): (Db, Stats) {
    var resolved := Resolved(x, db.(fts := FtsOf(db.rows), links := {}));
    var tags := db.tags + KeywordTags(x, db.rows);
    (resolved.0.(tags := tags), Stats(0, 0, 0, |db.rows|, resolved.1, |tags| - |db.tags|))
  }

  /** The write command that replays one event. */
  function ReplayRequest(e: Event): Request {
    Request("", e.content, None, Inbox, InboxCategory, "", [], if e.source == "" then "manual" else e.source,
            Some(e.ingestedAt * NANOS), e.prov, 0, NO_METADATA)
  }

  function Tallied(st: Stats, ok: bool): Stats {
    if ok then st.(rebuilt := st.rebuilt + 1) else st.(skipped := st.skipped + 1)
  }

  function ReplayOne(x: Extractors, db: Db, st: Stats, e: Event, env: Env): (Db, Stats) {
    if x.noise(e.content) then (db, Tallied(st, false))
    else
      var after := Ingested(x, db, ReplayRequest(e), env);
      (after.0, Tallied(st, after.1.Ok?))
  }

  function Replayed(x: Extractors, db: Db, log: seq<Event>, envs: seq<Env>): (Db, Stats)
    requires |envs| == |log|
  {
    if log == [] then (db, NO_STATS)
    else
      var n := |log| - 1;
      var before := Replayed(x, db, log[..n], envs[..n]);
      ReplayOne(x, before.0, before.1, log[n], envs[n])
  }

  const NO_STATS := Stats(0, 0, 0, 0, 0, 0)

  function Wiped(db: Db): Db { Db(db.events, [], {}, {}, []) }

  /** None when the log is empty: the store refuses to wipe the derived layer. */
  function Rebuilt(x: Extractors, db: Db, envs: seq<Env>): Option<(Db, Stats)>
    requires |envs| == |db.events|
  {
    if db.events == [] then None
    else
      var replayed := Replayed(x, Wiped(db), db.events, envs);
      var resolved := Resolved(x, replayed.0);
      Some((resolved.0, replayed.1.(events := |db.events|, links := resolved.1)))
  }
}
