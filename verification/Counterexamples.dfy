/** Runs that show where the store's laws stop: each condition in the theorems is needed. */
module Counterexamples {
  import opened Lists
  import opened Text
  import opened Tables
  import opened Runs
  import opened ProvenanceLaws
  import opened Replay
  import opened Agreement
  import opened Relabel
  import opened Supersession
  import opened Search

  /** An inbox item as a caller might send it. */
  function Item(content: string, hash: Option<Digest>, prov: Provenance): Request {
    Request("", content, hash, Inbox, Knowledge, "global", [], "manual", None, prov, 0, NO_METADATA)
  }

  /** A processed fact with its own time stamp, in seconds. */
  function Fact(content: string, second: int): Request {
    Request("", content, None, Processed, Knowledge, "global", [], "manual", Some(second * NANOS), NO_PROVENANCE, 0,
            NO_METADATA)
  }

  lemma RunOne(x: Extractors, a: Command)
    ensures Run(x, EMPTY_DB, [a]) == Step(x, EMPTY_DB, a)
  {
    hide Step;
    assert [a][..0] == [];
    assert Run(x, EMPTY_DB, []) == EMPTY_DB;
  }

  lemma RunNext(x: Extractors, cmds: seq<Command>, c: Command)
    ensures Run(x, EMPTY_DB, cmds + [c]) == Step(x, Run(x, EMPTY_DB, cmds), c)
  {
    hide Step;
    assert (cmds + [c])[..|cmds|] == cmds;
  }

  lemma GateItem(content: string, hash: Option<Digest>, prov: Provenance, env: Env)
    requires Trim(content) != "" && ByteLen(Trim(content)) <= MAX_CONTENT_LEN
    ensures var text := Trim(content);
      Gate(Item(content, hash, prov), env)
      == Ok(Memory(env.uuid, text, if hash.None? then HashContent(text) else hash.value, Inbox, Knowledge, "global",
                   [], "manual", env.now, prov, 0, NO_METADATA))
  {
    assert NormalizedTags([]) == [];
  }

  // ---- hashes taken before trimming ----

  /** Content with white space at an edge, hashed before trimming, replays as a second event. */
  lemma UntrimmedHashBreaksReplay(x: Extractors, content: string, prov: Provenance, env: Env, replay: Env)
    requires GateClean(Trim(content)) && Trim(content) != content && !x.noise(Trim(content))
    ensures var req := Item(content, Some(HashContent(content)), prov);
      var db := Run(x, EMPTY_DB, [DoIngest(req, env)]);
      && SoundRequest(req) && db.events == [Event(HashContent(content), Trim(content), "manual", env.now / NANOS, prov)]
      && Rebuilt(x, db, [replay]).value.0.events != db.events
  {
    hide Trim, ByteLen, Rebuilt;
    var req := Item(content, Some(HashContent(content)), prov);
    var cmds := [DoIngest(req, env)];
    GateItem(content, Some(HashContent(content)), prov, env);
    RunOne(x, cmds[0]);
    var db := Run(x, EMPTY_DB, cmds);
    BackfillLaws(prov, NO_PROVENANCE, NO_PROVENANCE);
    ReachableKeeps(x, cmds);
    assert db.events == [Event(HashContent(content), Trim(content), "manual", env.now / NANOS, prov)];
    assert !Absorbed(db.events, db.events[0]);
    RebuildFixesLogIff(x, db, [replay]);
  }

  /** The same text sent again without a hash becomes a second live row. */
  lemma UntrimmedHashDuplicates(x: Extractors, content: string, prov: Provenance, first: Env, second: Env)
    requires GateClean(Trim(content)) && Trim(content) != content && first.uuid != second.uuid
    ensures var req, again := Item(content, Some(HashContent(content)), prov), Item(content, None, prov);
      var rows := Run(x, EMPTY_DB, [DoIngest(req, first), DoIngest(again, second)]).rows;
      && SoundRequest(req) && SoundRequest(again)
      && |rows| == 2 && rows[0].id != rows[1].id && rows[0].content == rows[1].content == Trim(content)
  {
    hide Trim, ByteLen;
    var req, again := Item(content, Some(HashContent(content)), prov), Item(content, None, prov);
    GateItem(content, Some(HashContent(content)), prov, first);
    GateItem(content, None, prov, second);
    RunOne(x, DoIngest(req, first));
    RunNext(x, [DoIngest(req, first)], DoIngest(again, second));
    assert [DoIngest(req, first)] + [DoIngest(again, second)] == [DoIngest(req, first), DoIngest(again, second)];
    var m, n := Gate(req, first).value, Gate(again, second).value;
    hide Gate;
    FirstWrite(x, m, first.now);
    var db := Stored(x, EMPTY_DB, m, first.now).0;
    StoreAppendsRow(x, db, n, second.now);
  }

  lemma FirstWrite(x: Extractors, m: Memory, now: int)
    requires m.phase == Inbox
    ensures var (db, r) := Stored(x, EMPTY_DB, m, now);
      db.rows == [RowOf(x, m)] && db.links == {} && r == Ok(m.id)
    ensures Stored(x, EMPTY_DB, m, now).0.events == [EventOf(m, now)]
  {
    BackfillLaws(m.prov, NO_PROVENANCE, NO_PROVENANCE);
    assert SupersedeRows([RowOf(x, m)], {}, m.id) == [RowOf(x, m)];
  }

  lemma StoreAppendsRow(x: Extractors, db: Db, m: Memory, now: int)
    requires m.phase == Inbox && FindByHash(db.rows, m.hash).None? && !HasId(db.rows, m.id)
    ensures Stored(x, db, m, now).0.rows == db.rows + [RowOf(x, m)]
    ensures Stored(x, db, m, now).0.events == LogAfter(db.events, m, now)
  {
    assert SupersedeRows(db.rows + [RowOf(x, m)], {}, m.id) == db.rows + [RowOf(x, m)];
  }

  lemma LogAppends(events: seq<Event>, m: Memory, now: int)
    requires forall i :: 0 <= i < |events| ==> events[i].id != m.hash
    ensures LogAfter(events, m, now) == events + [EventOf(m, now)]
  {
    BackfillLaws(m.prov, NO_PROVENANCE, NO_PROVENANCE);
  }

  function InSessionNamed(session: string): Provenance { NO_PROVENANCE.(session := session) }

  /** One text from two sessions, first under the hash of its untrimmed form. */
  function TwoItems(content: string, s1: string, s2: string): (Request, Request) {
    (Item(content, Some(HashContent(content)), InSessionNamed(s1)), Item(Trim(content), None, InSessionNamed(s2)))
  }

  /** The log that two such ingests of one text leave. */
  lemma TwoHashesOneText(x: Extractors, content: string, s1: string, s2: string, first: Env, second: Env)
    requires GateClean(Trim(content)) && Trim(content) != content && first.uuid != second.uuid
    ensures var text := Trim(content);
      var (req, again) := TwoItems(content, s1, s2);
      Run(x, EMPTY_DB, [DoIngest(req, first), DoIngest(again, second)]).events
      == [Event(HashContent(content), text, "manual", first.now / NANOS, InSessionNamed(s1)),
          Event(HashContent(text), text, "manual", second.now / NANOS, InSessionNamed(s2))]
  {
    hide Trim, ByteLen, Stored, LogAfter;
    var text := Trim(content);
    var (req, again) := TwoItems(content, s1, s2);
    assert Trim(text) == text;
    GateItem(content, Some(HashContent(content)), InSessionNamed(s1), first);
    GateItem(text, None, InSessionNamed(s2), second);
    RunOne(x, DoIngest(req, first));
    RunNext(x, [DoIngest(req, first)], DoIngest(again, second));
    assert [DoIngest(req, first)] + [DoIngest(again, second)] == [DoIngest(req, first), DoIngest(again, second)];
    var m, n := Gate(req, first).value, Gate(again, second).value;
    hide Gate;
    FirstWrite(x, m, first.now);
    var db := Stored(x, EMPTY_DB, m, first.now).0;
    StoreAppendsRow(x, db, n, second.now);
    LogAppends(db.events, n, second.now);
  }

  lemma TwoDeliveries(x: Extractors, a: Event, b: Event)
    requires a.content == b.content && !x.noise(a.content)
    ensures var h := HashContent(a.content);
      ReplayDeliveries(x, [a, b]) == [Delivery(h, a.prov), Delivery(h, b.prov)]
      && FirstDelivered(ReplayDeliveries(x, [a, b]), h) == Backfill(a.prov, b.prov)
      && Delivered(ReplayDeliveries(x, [a, b]), h)
  {
    var h := HashContent(a.content);
    var one, two := Delivery(h, a.prov), Delivery(h, b.prov);
    var none: seq<Event> := [];
    assert [a][..0] == none && ReplayDeliveries(x, none) == [];
    assert ReplayDeliveries(x, [a]) == [one];
    assert [a, b][..1] == [a];
    assert ReplayDeliveries(x, [a, b]) == [one, two];
    assert [one] + [two] == [one, two] && [] + [one] == [one];
    DeliverOne([], one, h);
    DeliverOne([one], two, h);
    BackfillLaws(a.prov, NO_PROVENANCE, NO_PROVENANCE);
  }

  /** One text from two sessions, once under its untrimmed hash: rows and events agree until a full
      rebuild, which leaves one row with the first session, beside an event with the second, and so
      restores neither one memory per event nor the second event's provenance. */
  lemma RebuildPartsThem(x: Extractors, content: string, s1: string, s2: string, first: Env, second: Env,
                         envs: nat -> Env)
    requires GateClean(Trim(content)) && Trim(content) != content && !x.noise(Trim(content))
    requires s1 != "" && s2 != "" && s1 != s2 && first.uuid != second.uuid && FreshIds(DoReplay(envs))
    ensures var text := Trim(content);
      var (req, again) := TwoItems(content, s1, s2);
      var cmds := [DoIngest(req, first), DoIngest(again, second)];
      && AlwaysInformed(x, cmds) && AlwaysAgree(x, cmds)
      && !Agree(Step(x, Run(x, EMPTY_DB, cmds), DoReplay(envs)))
      && !RecreatesAll(x, Step(x, Run(x, EMPTY_DB, cmds), DoReplay(envs)).rows,
                       Filter(Run(x, EMPTY_DB, cmds).events, Kept(x)))
  {
    hide Trim, ByteLen, Step, AlwaysInformed, AlwaysAgree, RecreatesAll, Consistent, Agree, Fresh, FreshIds, Rebuilt;
    var text := Trim(content);
    var (req, again) := TwoItems(content, s1, s2);
    var cmds, c := [DoIngest(req, first), DoIngest(again, second)], DoReplay(envs);
    var db := Run(x, EMPTY_DB, cmds);
    assert Trim(text) == text;
    TwoHashesOneText(x, content, s1, s2, first, second);
    ReachableKeeps(x, cmds);
    RunSourced(x, cmds);
    WithoutDeletesInformed(x, cmds);
    AlwaysAgreeIff(x, cmds);
    hide Run;
    EnvsFresh(c, |db.events|);
    StepRebuilds(x, db, c);
    RebuildAgreesIff(x, db, Envs(envs, |db.events|));
    RebuildRestoresIff(x, db, Envs(envs, |db.events|));
    TwoDeliveries(x, db.events[0], db.events[1]);
    assert !Enriches(db.events[1].prov, FirstDelivered(ReplayDeliveries(x, db.events), db.events[1].id));
    BothKept(x, db.events[0], db.events[1]);
  }

  lemma BothKept(x: Extractors, a: Event, b: Event)
    requires !x.noise(a.content) && a.content == b.content
    ensures Filter([a, b], Kept(x)) == [a, b] && !DistinctTexts([a, b])
  {
    assert [a, b][..1] == [a] && [a][..0] == [];
    assert [a, b][0].content == [a, b][1].content;
  }

  // ---- deleting in between ----

  /** After a delete and a re-ingest without a session, the event still knows the session of the
      first ingest and the live row does not: the row half of the provenance law needs its condition. */
  lemma DeleteSplitsProvenance(x: Extractors, content: string, session: string, first: Env, second: Env)
    requires GateClean(content) && session != ""
    ensures var req := Item(content, None, NO_PROVENANCE.(session := session));
      var again := Item(content, None, NO_PROVENANCE);
      var db := Run(x, EMPTY_DB, [DoIngest(req, first), DoDelete(first.uuid), DoIngest(again, second)]);
      && |db.rows| == |db.events| == 1 && db.rows[0].rawEntry == db.events[0].id
      && db.events[0].prov.session == session && db.rows[0].prov.session == ""
  {
    hide Trim, ByteLen, Stored, Deleted, LogAfter;
    var prov := NO_PROVENANCE.(session := session);
    var req, again := Item(content, None, prov), Item(content, None, NO_PROVENANCE);
    GateItem(content, None, prov, first);
    GateItem(content, None, NO_PROVENANCE, second);
    var a, b, c := DoIngest(req, first), DoDelete(first.uuid), DoIngest(again, second);
    RunOne(x, a);
    RunNext(x, [a], b);
    RunNext(x, [a, b], c);
    assert [a] + [b] == [a, b] && [a, b] + [c] == [a, b, c];
    var m, n := Gate(req, first).value, Gate(again, second).value;
    hide Gate;
    FirstWrite(x, m, first.now);
    var db := Stored(x, EMPTY_DB, m, first.now).0;
    DeleteOnly(db, RowOf(x, m));
    StoreAppendsRow(x, Deleted(db, first.uuid).0, n, second.now);
    LogUnchanged(EventOf(m, first.now), n, second.now);
  }

  lemma LogUnchanged(e: Event, m: Memory, now: int)
    requires e.id == m.hash && m.prov == NO_PROVENANCE
    ensures LogAfter([e], m, now) == [e]
  {
    assert HasEvent([e], m.hash) by { assert [e][0].id == m.hash; }
    BackfillLaws(e.prov, NO_PROVENANCE, NO_PROVENANCE);
  }

  lemma DeleteOnly(db: Db, row: Row)
    requires db.rows == [row]
    ensures Deleted(db, row.id).0.rows == [] && Deleted(db, row.id).0.events == db.events
  {
    assert db.rows[0].id == row.id && HasId(db.rows, row.id);
    FilterNone(db.rows, NotId(row.id));
  }

  // ---- re-ingesting an old fact ----

  lemma GateFact(content: string, second: int, env: Env)
    requires GateClean(content)
    ensures Gate(Fact(content, second), env)
         == Ok(Memory(env.uuid, content, HashContent(content), Processed, Knowledge, "global", [], "manual",
                      second * NANOS, NO_PROVENANCE, 0, NO_METADATA))
  {
    assert NormalizedTags([]) == [];
  }

  function FactRow(content: string, second: int, id: Id, metadata: Metadata): Row {
    Row(id, content, HashContent(content), Processed, Knowledge, "global", "manual", second, HashContent(content),
        NO_PROVENANCE, 0, metadata)
  }

  function ReplacedBy(id: Id): Metadata { NO_METADATA.(supersededBy := Some(Str(id))) }

  /** The two facts are about the same thing. */
  predicate SameSubject(x: Extractors, a: string, b: string) {
    |x.terms(a)| >= 2 && |x.terms(b)| >= 2
    && SharedTerms(x.terms(a), x.terms(b)) >= 3 && SharedTerms(x.terms(b), x.terms(a)) >= 3
  }

  lemma StoreFirstFact(x: Extractors, a: string, id: Id, m: Memory, now: int)
    requires m == Memory(id, a, HashContent(a), Processed, Knowledge, "global", [], "manual", 0,
                         NO_PROVENANCE, 0, NO_METADATA)
    ensures Stored(x, EMPTY_DB, m, now).0.rows == [FactRow(a, 0, id, NO_METADATA)]
  {
    hide SharedTerms;
  }

  lemma StoreNewerFact(x: Extractors, db: Db, a: string, b: string, idA: Id, m: Memory, now: int)
    requires db.rows == [FactRow(a, 0, idA, NO_METADATA)] && a != b && idA != m.id && SameSubject(x, a, b)
    requires m == Memory(m.id, b, HashContent(b), Processed, Knowledge, "global", [], "manual", NANOS,
                         NO_PROVENANCE, 0, NO_METADATA)
    ensures Stored(x, db, m, now).0.rows == [FactRow(a, 0, idA, ReplacedBy(m.id)), FactRow(b, 1, m.id, NO_METADATA)]
  {
    hide SharedTerms, BackfillEvents, AppendEvent;
    var rows := db.rows + [FactRow(b, 1, m.id, NO_METADATA)];
    assert RowOf(x, m) == FactRow(b, 1, m.id, NO_METADATA);
    assert Overtakes(x, rows[0], m, m.id);
    assert Overtaken(x, rows, m, m.id) == {idA};
  }

  lemma StoreOldFactAgain(x: Extractors, db: Db, a: string, b: string, idA: Id, idB: Id, m: Memory, now: int)
    requires db.rows == [FactRow(a, 0, idA, ReplacedBy(idB)), FactRow(b, 1, idB, NO_METADATA)]
    requires a != b && idA != idB && SameSubject(x, a, b)
    requires m == Memory(m.id, a, HashContent(a), Processed, Knowledge, "global", [], "manual", 2 * NANOS,
                         NO_PROVENANCE, 0, NO_METADATA)
    ensures Stored(x, db, m, now).0.rows == [FactRow(a, 0, idA, ReplacedBy(idB)), FactRow(b, 1, idB, ReplacedBy(idA))]
  {
    hide SharedTerms, BackfillEvents, AppendEvent, MergedTags, TagRows;
    OldFactOvertakes(x, db.rows, a, b, idA, idB, m);
    assert FindByHash(db.rows, m.hash) == Some(idA);
    hide FindByHash, Overtaken;
    assert BackfillRows(db.rows, idA, NO_PROVENANCE) == db.rows;
    hide BackfillRows;
    var again := Inserted(x, db, m, now).value;
    assert again.0.rows == db.rows && again.1 == idA;
  }

  lemma OldFactOvertakes(x: Extractors, rows: seq<Row>, a: string, b: string, idA: Id, idB: Id, m: Memory)
    requires rows == [FactRow(a, 0, idA, ReplacedBy(idB)), FactRow(b, 1, idB, NO_METADATA)]
    requires idA != idB && SameSubject(x, a, b)
    requires m.content == a && m.phase == Processed && m.category == Knowledge && m.prov == NO_PROVENANCE
    requires m.createdAt == 2 * NANOS
    ensures Overtaken(x, rows, m, idA) == {idB}
  {
    hide SharedTerms;
    assert rows[1] in rows && Overtakes(x, rows[1], m, idA);
  }

  /** A fact that was replaced and is then ingested again under a later time replaces its own
      successor: the two rows name each other, and following the marks never ends. */
  lemma ReingestMakesTwoCycle(x: Extractors, a: string, b: string, first: Env, second: Env, third: Env)
    requires GateClean(a) && GateClean(b) && a != b && first.uuid != second.uuid && SameSubject(x, a, b)
    ensures var rows := Run(x, EMPTY_DB,
        [DoIngest(Fact(a, 0), first), DoIngest(Fact(b, 1), second), DoIngest(Fact(a, 2), third)]).rows;
      Edge(rows, 0, 1) && Edge(rows, 1, 0) && !Forward(rows)
  {
    hide GateClean, SameSubject, Stored;
    var c, d, e := DoIngest(Fact(a, 0), first), DoIngest(Fact(b, 1), second), DoIngest(Fact(a, 2), third);
    RunOne(x, c);
    RunNext(x, [c], d);
    RunNext(x, [c, d], e);
    assert [c] + [d] == [c, d] && [c, d] + [e] == [c, d, e];
    GateFact(a, 0, first);
    GateFact(b, 1, second);
    GateFact(a, 2, third);
    var one, two := Run(x, EMPTY_DB, [c]), Run(x, EMPTY_DB, [c, d]);
    StoreFirstFact(x, a, first.uuid, Gate(Fact(a, 0), first).value, first.now);
    StoreNewerFact(x, one, a, b, first.uuid, Gate(Fact(b, 1), second).value, second.now);
    StoreOldFactAgain(x, two, a, b, first.uuid, second.uuid, Gate(Fact(a, 2), third).value, third.now);
  }

  lemma StoreMarkedFact(x: Extractors, db: Db, a: string, b: string, idA: Id, m: Memory, now: int)
    requires db.rows == [FactRow(a, 0, idA, NO_METADATA)] && a != b && idA != m.id && SameSubject(x, a, b)
    requires m == Memory(m.id, b, HashContent(b), Processed, Knowledge, "global", [], "manual", NANOS,
                         NO_PROVENANCE, 0, ReplacedBy(idA))
    ensures Stored(x, db, m, now).0.rows
         == [FactRow(a, 0, idA, ReplacedBy(m.id)), FactRow(b, 1, m.id, ReplacedBy(idA))]
  {
    hide SharedTerms, BackfillEvents, AppendEvent;
    var rows := db.rows + [FactRow(b, 1, m.id, ReplacedBy(idA))];
    assert RowOf(x, m) == FactRow(b, 1, m.id, ReplacedBy(idA));
    assert Overtakes(x, rows[0], m, m.id);
    assert Overtaken(x, rows, m, m.id) == {idA};
  }

  /** The same without a re-ingest: a new fact that says it was replaced by the row it replaces. */
  lemma OwnMarkMakesTwoCycle(x: Extractors, a: string, b: string, first: Env, second: Env)
    requires GateClean(a) && GateClean(b) && a != b && first.uuid != second.uuid && SameSubject(x, a, b)
    ensures var marked := Fact(b, 1).(metadata := ReplacedBy(first.uuid));
      var rows := Run(x, EMPTY_DB, [DoIngest(Fact(a, 0), first), DoIngest(marked, second)]).rows;
      Edge(rows, 0, 1) && Edge(rows, 1, 0) && !Forward(rows)
  {
    hide GateClean, SameSubject, Stored;
    var marked := Fact(b, 1).(metadata := ReplacedBy(first.uuid));
    var c, d := DoIngest(Fact(a, 0), first), DoIngest(marked, second);
    RunOne(x, c);
    RunNext(x, [c], d);
    assert [c] + [d] == [c, d];
    GateFact(a, 0, first);
    GateFact(b, 1, second);
    assert Gate(marked, second) == Ok(Gate(Fact(b, 1), second).value.(metadata := ReplacedBy(first.uuid)));
    StoreFirstFact(x, a, first.uuid, Gate(Fact(a, 0), first).value, first.now);
    StoreMarkedFact(x, Run(x, EMPTY_DB, [c]), a, b, first.uuid, Gate(marked, second).value, second.now);
  }

  // ---- letters that only Go folds ----

  lemma OneLetterKeyword(fold: char -> char)
    requires fold('\U{E4}') == '\U{E4}'
    ensures Keywords(fold, "\U{E4}") == ["\U{E4}"]
  {
    var q := "\U{E4}";
    assert Fold(fold, q) == q;
    assert ReplaceOr(q) == q by { assert q[1..] == [] && ReplaceOr([]) == []; }
    assert Fields(q) == [q] by { assert q[..0] == [] && Fields([]) == []; }
    assert Trim(q) == q;
    assert Map([q], Trim) == [q];
  }

  lemma OneLetterLike()
    ensures Like(Pattern("\U{E4}"), "\U{E4}") && !Like(Pattern("\U{E4}"), "\U{C4}")
  {
    var p, rest := Pattern("\U{E4}"), "\U{E4}%";
    assert p == "%" + rest && p[1..] == rest && rest[1..] == "%";
    PercentMatchesAll("");
    assert "\U{E4}"[1..] == "" && "\U{C4}"[1..] == "";
    assert Like(rest, "\U{E4}");
    assert !Like(rest, "\U{C4}") && !Like(rest, "") && !Like(p, "");
  }

  /** With a live row for each case of one umlaut, a query in lower case gives the keyword a weight
      and would score both rows, but the candidate query, which folds ASCII only, never fetches the
      upper-case one. */
  lemma UmlautMissed(fold: char -> char, ln: real -> real, db: Db)
    requires FoldsAscii(fold) && fold('\U{C4}') == '\U{E4}' && fold('\U{E4}') == '\U{E4}'
    requires DistinctRows(db.rows) && db.fts == FtsOf(db.rows)
    requires |db.rows| == 2 && db.rows[0].content == "\U{C4}" && db.rows[1].content == "\U{E4}"
    ensures var q := Query("\U{E4}", None, "", [], []);
      && (exists k :: k in Keywords(fold, q.text) && k != "")
      && Prefiltered(fold, ln, db, q) != Ok(FullScan(fold, ln, db, q))
  {
    hide *;
    var kw := "\U{E4}";
    var q := Query(kw, None, "", [], []);
    var s := Scoring(fold, ln, CorpusOf(db), Keywords(fold, q.text));
    OneLetterKeyword(fold);
    OneLetterLike();
    UmlautFolds(fold);
    CountsLower(db, kw);
    OneKeywordSlips(db, q, s, kw, db.rows[0]);
    assert kw in Keywords(fold, q.text);
    PrefilterIsFullScanIff(fold, ln, db, q);
  }

  lemma UmlautFolds(fold: char -> char)
    requires fold('\U{C4}') == '\U{E4}'
    ensures Fold(fold, "\U{C4}") == "\U{E4}"
    ensures forall c :: Fallback(c, "\U{E4}") == ""
  {
  }

  /** A row whose folded text is the only keyword slips through if its own text does not match it. */
  lemma OneKeywordSlips(db: Db, q: Query, s: Scoring, kw: string, r: Row)
    requires s.keywords == [kw] && kw != "" && Fallback(s.corpus, kw) == "" && Count(s.corpus, kw) > 0
    requires q == Query(q.text, None, "", [], [])
    requires Fold(s.fold, r.content) == kw && !Like(Pattern(kw), r.content)
    ensures Slips(db, q, s, r)
  {
    hide Count, Like, Fallback, Fold;
    assert At(kw, 0, kw) && Contains(kw, kw);
    assert Finds(s, kw, 0);
    assert Patterns(s, 0) == [];
    assert Patterns(s, 1) == [kw];
  }

  lemma CountsLower(db: Db, kw: string)
    requires |db.rows| == 2 && db.rows[1].content == kw && |kw| < 3 && Like(Pattern(kw), kw)
    ensures Count(CorpusOf(db), kw) > 0
  {
    hide Like, Lower;
    var stored := Map(db.rows, RowContent);
    assert CorpusOf(db).stored == stored;
    LikeIgnoresCase(Pattern(kw), kw);
    assert stored[1] == RowContent(db.rows[1]) == kw;
    assert LikeLowered(kw)(kw);
    assert kw in stored && kw in Filter(stored, LikeLowered(kw));
  }
}
