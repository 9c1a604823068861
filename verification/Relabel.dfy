/** What a full rebuild restores, and why generated ids are only names: a second rebuild reaches the
    same tables under new ids. */
module Relabel {
  import opened Lists
  import opened Text
  import opened Tables
  import opened Runs
  import opened ProvenanceLaws
  import opened Replay
  import opened Duplicates
  import opened Links
  import opened Promises

  function Kept(x: Extractors): Event -> bool { (e: Event) => !x.noise(e.content) }

  /** What replay restores of an event, and what it resets. */
  ghost predicate Recreates(x: Extractors, r: Row, e: Event) {
    && r.content == e.content && r.prov == e.prov && r.hash == r.rawEntry == HashContent(e.content)
    && r.createdAt == e.ingestedAt && r.source == (if e.source == "" then "manual" else e.source)
    && r.phase == Inbox && r.category == x.categorize(e.content) && r.scope == ""
    && r.mask == 0 && r.metadata == NO_METADATA
  }

  /** The same, and the row names that very event. */
  ghost predicate Restores(x: Extractors, r: Row, e: Event) { Recreates(x, r, e) && r.rawEntry == e.id }

  ghost predicate RecreatesAll(x: Extractors, rows: seq<Row>, kept: seq<Event>) {
    |rows| == |kept| && forall k :: 0 <= k < |rows| ==> Recreates(x, rows[k], kept[k])
  }

  lemma {:induction false} ReplayedRowsMatch(x: Extractors, log: seq<Event>, envs: seq<Env>, n: nat)
    requires n <= |log| == |envs|
    ensures RecreatesAll(x, ReplayedRows(x, log, envs, n), Filter(log[..n], Kept(x)))
    decreases n
  {
    if n > 0 {
      ReplayedRowsMatch(x, log, envs, n - 1);
      FilterStep(log, n - 1, Kept(x));
      var e := log[n - 1];
      assert Recreates(x, RowOf(x, ReplayMemory(e, envs[n - 1])), e) by {
        assert e.ingestedAt * NANOS / NANOS == e.ingestedAt;
      }
    }
  }

  ghost predicate DistinctTexts(events: seq<Event>) {
    forall i, j :: 0 <= i < j < |events| ==> events[i].content != events[j].content
  }

  /** While no text comes twice, replaying appends one row per event that is not noise. */
  lemma {:induction false} ReplayAppends(x: Extractors, db: Db, log: seq<Event>, envs: seq<Env>, n: nat)
    requires db.rows == [] && SourcedEvents(log) && n <= |log| == |envs| && Fresh(envs)
    requires DistinctTexts(Filter(log[..n], Kept(x)))
    ensures Prefix(x, db, log, envs, n).0.rows == ReplayedRows(x, log, envs, n)
    decreases n
  {
    hide Prefix, Stored, HasId, ReplayMemory, GateClean, SourcedEvents, Fresh, RowOf, RecreatesAll, FindByHash,
         DistinctTexts, ReplayedRows, Filter;
    if n == 0 {
      NoRowsYet(x, db, log, envs);
    } else {
      var e, env := log[n - 1], envs[n - 1];
      FilterStep(log, n - 1, Kept(x));
      ReplayedRowsNext(x, log, envs, n - 1);
      var kept := Filter(log[..n - 1], Kept(x));
      assert kept + [] == kept;
      EarlierDistinct(kept, Filter(log[..n], Kept(x)), e);
      ReplayAppends(x, db, log, envs, n - 1);
      assert GateClean(e.content) by { CleanEvent(log, n - 1); }
      PrefixNext(x, db, log, envs, n - 1);
      if !x.noise(e.content) {
        ReplayCommits(x, db, log, envs, n - 1);
        ReplayedRowsMatch(x, log, envs, n - 1);
        NewText(x, ReplayedRows(x, log, envs, n - 1), kept, e);
        AppendsMemory(x, Prefix(x, db, log, envs, n - 1).0, e, env);
      }
    }
  }

  lemma ReplayedRowsNext(x: Extractors, log: seq<Event>, envs: seq<Env>, n: nat)
    requires n < |log| == |envs|
    ensures ReplayedRows(x, log, envs, n + 1)
         == if x.noise(log[n].content) then ReplayedRows(x, log, envs, n)
            else ReplayedRows(x, log, envs, n) + [RowOf(x, ReplayMemory(log[n], envs[n]))]
  {
  }

  lemma NoRowsYet(x: Extractors, db: Db, log: seq<Event>, envs: seq<Env>)
    requires db.rows == [] && |log| == |envs|
    ensures Prefix(x, db, log, envs, 0).0.rows == ReplayedRows(x, log, envs, 0)
  {
  }

  lemma EarlierDistinct(kept: seq<Event>, more: seq<Event>, e: Event)
    requires DistinctTexts(more) && (more == kept || more == kept + [e])
    ensures DistinctTexts(kept)
    ensures more == kept + [e] ==> forall k :: 0 <= k < |kept| ==> kept[k].content != e.content
  {
    assert more[..|kept|] == kept;
    if more == kept + [e] {
      assert more[|kept|] == e;
    }
  }

  lemma CleanEvent(log: seq<Event>, n: nat)
    requires SourcedEvents(log) && n < |log|
    ensures GateClean(log[n].content)
  {
  }

  lemma NewText(x: Extractors, rows: seq<Row>, kept: seq<Event>, e: Event)
    requires RecreatesAll(x, rows, kept) && forall k :: 0 <= k < |kept| ==> kept[k].content != e.content
    ensures FindByHash(rows, HashContent(e.content)).None?
  {
  }

  lemma AppendsMemory(x: Extractors, db: Db, e: Event, env: Env)
    requires FindByHash(db.rows, HashContent(e.content)).None? && !HasId(db.rows, env.uuid)
    ensures Stored(x, db, ReplayMemory(e, env), env.now).0.rows == db.rows + [RowOf(x, ReplayMemory(e, env))]
  {
    StoreAppends(x, db, ReplayMemory(e, env), env.now);
  }

  /** A full rebuild recreates exactly one memory per event that is not noise, in log order, with the
      event's text, provenance and time, exactly when no two of those events hold the same text. */
  lemma RebuildRestoresIff(x: Extractors, db: Db, envs: seq<Env>)
    requires Consistent(db) && SourcedEvents(db.events) && db.events != []
    requires |envs| == |db.events| && Fresh(envs)
    ensures var rows, kept := Rebuilt(x, db, envs).value.0.rows, Filter(db.events, Kept(x));
      && (RecreatesAll(x, rows, kept) <==> DistinctTexts(kept))
      && (rows == ReplayedRows(x, db.events, envs, |envs|) <==> DistinctTexts(kept))
  {
    hide Consistent, SourcedEvents, Fresh, ReplayedRows, Replayed, DistinctContent, Prefix;
    var log, n := db.events, |envs|;
    var rows, kept := Rebuilt(x, db, envs).value.0.rows, Filter(log, Kept(x));
    PrefixAll(x, Wiped(db), log, envs);
    assert log[..n] == log;
    ReplayedRowsMatch(x, log, envs, n);
    RebuildDistinct(x, db, envs);
    if DistinctTexts(kept) {
      ReplayAppends(x, Wiped(db), log, envs, n);
    }
    if RecreatesAll(x, rows, kept) {
      TextsOfRows(x, rows, kept);
    }
  }

  lemma TextsOfRows(x: Extractors, rows: seq<Row>, kept: seq<Event>)
    requires RecreatesAll(x, rows, kept) && DistinctContent(rows)
    ensures DistinctTexts(kept)
  {
    forall i, j | 0 <= i < j < |kept|
      ensures kept[i].content != kept[j].content
    {
      assert rows[i].content != rows[j].content;
    }
  }

  // ---- what a rebuild reports, and the tags and links it leaves ----

  lemma {:induction false} ReplayTallies(x: Extractors, db: Db, log: seq<Event>, envs: seq<Env>, n: nat)
    requires db.rows == [] && SourcedEvents(log) && n <= |log| == |envs| && Fresh(envs)
    ensures var kept := |Filter(log[..n], Kept(x))|;
      Prefix(x, db, log, envs, n).1 == Stats(0, kept, n - kept, 0, 0, 0)
    decreases n
  {
    hide Prefix, Stored, HasId, ReplayMemory, GateClean, SourcedEvents, Fresh, Filter;
    if n == 0 {
      NothingTallied(x, db, log, envs);
    } else {
      ReplayTallies(x, db, log, envs, n - 1);
      FilterStep(log, n - 1, Kept(x));
      assert GateClean(log[n - 1].content) by { CleanEvent(log, n - 1); }
      PrefixNext(x, db, log, envs, n - 1);
      if !x.noise(log[n - 1].content) {
        ReplayCommits(x, db, log, envs, n - 1);
      }
    }
  }

  lemma NothingTallied(x: Extractors, db: Db, log: seq<Event>, envs: seq<Env>)
    requires |log| == |envs|
    ensures Prefix(x, db, log, envs, 0).1 == NO_STATS && Filter(log[..0], Kept(x)) == []
  {
  }

  /** The tag belongs to a row and is the first of its kind among the row's keywords. */
  ghost predicate OfKeywords(x: Extractors, rows: seq<Row>, t: (Id, string)) {
    exists i :: 0 <= i < |rows| && rows[i].id == t.0 && First(x.keywords(rows[i].content), t.1)
  }

  /** Rows carry the hash of their own text, and the tags are those of the keywords. */
  ghost predicate OwnTagged(x: Extractors, rows: seq<Row>, tags: set<(Id, string)>) {
    && (forall i :: 0 <= i < |rows| ==> rows[i].hash == HashContent(rows[i].content))
    && forall t :: t in tags <==> OfKeywords(x, rows, t)
  }

  lemma TagsStep(x: Extractors, db: Db, e: Event, env: Env)
    requires Consistent(db) && OwnTagged(x, db.rows, db.tags)
    requires Stored(x, db, ReplayMemory(e, env), env.now).1.Ok?
    ensures var after := Stored(x, db, ReplayMemory(e, env), env.now).0; OwnTagged(x, after.rows, after.tags)
  {
    hide Stored, Consistent, First, FillsAll, Replaces, MergedTags;
    var m := ReplayMemory(e, env);
    var (after, r) := Stored(x, db, m, env.now);
    StorePutsRow(x, db, m, env.now);
    StoreRest(x, db, m, env.now);
    forall i | 0 <= i < |db.rows|
      ensures after.rows[i].id == db.rows[i].id && after.rows[i].hash == db.rows[i].hash
      ensures after.rows[i].content == db.rows[i].content
    {
      assert OldRow(x, db.rows[i], after.rows[i], m.hash, m.prov, Arrives(x, m, r.value));
    }
    forall t
      ensures t in after.tags <==> t in db.tags || (t.0 == r.value && First(x.keywords(e.content), t.1))
    {
      KeywordsFirst(x.keywords(e.content), t.1);
    }
    assert exists k :: 0 <= k < |after.rows| && after.rows[k].id == r.value && after.rows[k].content == e.content by {
      if KnownHash(db.rows, m.hash) {
        var k :| 0 <= k < |db.rows| && db.rows[k].hash == m.hash && db.rows[k].id == r.value;
        assert after.rows[k].content == e.content;
      } else {
        assert after.rows[|db.rows|] == RowOf(x, m);
      }
    }
    TagsGrow(x, db, after, r.value, e.content);
  }

  lemma KeywordsFirst(keywords: seq<string>, t: string)
    ensures t in MergedTags([], keywords) <==> First(keywords, t)
  {
    hide First;
    TagsAreFirst([], keywords, t);
    assert Offered([], keywords) == keywords;
    assert NormalizedTags([]) == [];
  }

  lemma TagsGrow(x: Extractors, db: Db, after: Db, id: Id, content: string)
    requires OwnTagged(x, db.rows, db.tags)
    requires |db.rows| <= |after.rows| <= |db.rows| + 1
    requires forall i :: 0 <= i < |db.rows| ==>
      after.rows[i].id == db.rows[i].id && after.rows[i].content == db.rows[i].content
    requires |after.rows| > |db.rows| ==> after.rows[|db.rows|].id == id && after.rows[|db.rows|].content == content
    requires exists k :: 0 <= k < |after.rows| && after.rows[k].id == id && after.rows[k].content == content
    requires forall t :: t in after.tags <==> t in db.tags || (t.0 == id && First(x.keywords(content), t.1))
    ensures forall t :: t in after.tags <==> OfKeywords(x, after.rows, t)
  {
    hide First;
    forall t
      ensures t in after.tags <==> OfKeywords(x, after.rows, t)
    {
      if OfKeywords(x, db.rows, t) {
        var i :| 0 <= i < |db.rows| && db.rows[i].id == t.0 && First(x.keywords(db.rows[i].content), t.1);
        assert after.rows[i].id == t.0;
      }
      if OfKeywords(x, after.rows, t) {
        var i :| 0 <= i < |after.rows| && after.rows[i].id == t.0 && First(x.keywords(after.rows[i].content), t.1);
        assert i < |db.rows| ==> db.rows[i].id == t.0;
      }
    }
  }

  lemma {:induction false} ReplayTags(x: Extractors, db: Db, log: seq<Event>, envs: seq<Env>, n: nat)
    requires Consistent(db) && db.rows == [] && db.tags == {} && n <= |log| == |envs|
    requires SourcedEvents(log)
    ensures var after := Prefix(x, db, log, envs, n).0; OwnTagged(x, after.rows, after.tags)
    decreases n
  {
    hide Prefix, Stored, Consistent, ReplayMemory, GateClean, SourcedEvents, OwnTagged, Grows;
    if n == 0 {
      NothingTagged(x, db, log, envs);
    } else {
      ReplayTags(x, db, log, envs, n - 1);
      assert GateClean(log[n - 1].content) by { CleanEvent(log, n - 1); }
      PrefixNext(x, db, log, envs, n - 1);
      PrefixKeeps(x, db, log, envs, n - 1);
      var before, m := Prefix(x, db, log, envs, n - 1).0, ReplayMemory(log[n - 1], envs[n - 1]);
      if !x.noise(log[n - 1].content) {
        if Stored(x, before, m, envs[n - 1].now).1.Ok? {
          TagsStep(x, before, log[n - 1], envs[n - 1]);
        } else {
          StoreFails(x, before, m, envs[n - 1].now);
        }
      }
    }
  }

  lemma NothingTagged(x: Extractors, db: Db, log: seq<Event>, envs: seq<Env>)
    requires db.rows == [] && db.tags == {} && |log| == |envs|
    ensures var after := Prefix(x, db, log, envs, 0).0; OwnTagged(x, after.rows, after.tags)
  {
  }

  /** After a full rebuild of any log the tags are the keywords of the rows, the links are those the
      texts ask for, and the index mirrors the rows; under fresh ids every event that is not noise
      counts as rebuilt and every other one as skipped. */
  lemma RebuildReports(x: Extractors, db: Db, envs: seq<Env>)
    requires Consistent(db) && SourcedEvents(db.events) && db.events != [] && |envs| == |db.events|
    ensures var (after, st) := Rebuilt(x, db, envs).value;
      && (forall t :: t in after.tags <==> OfKeywords(x, after.rows, t))
      && Resolves(x, after.rows, {}, after.links, st.links)
      && after.fts == FtsOf(after.rows)
      && (Fresh(envs) ==>
            var kept := |PositionsWhere(db.events, Kept(x))|;
            st == Stats(|db.events|, kept, |db.events| - kept, 0, st.links, 0))
  {
    hide Replayed, Resolved, Resolves, SourcedEvents, Fresh, OfKeywords, Prefix, Grows, Filter, PositionsWhere;
    var log, n := db.events, |envs|;
    assert log[..n] == log;
    PrefixAll(x, Wiped(db), log, envs);
    assert Consistent(Wiped(db));
    PrefixKeeps(x, Wiped(db), log, envs, n);
    ReplayTags(x, Wiped(db), log, envs, n);
    ReplayAddsNoLink(x, Wiped(db), log, envs);
    var replayed := Prefix(x, Wiped(db), log, envs, n).0;
    RowsDiffer(replayed);
    ResolveKeepsPromise(x, replayed);
    if Fresh(envs) {
      ReplayTallies(x, Wiped(db), log, envs, n);
      FilterPositions(log, Kept(x));
    }
  }

  lemma CanonicalTexts(x: Extractors, log: seq<Event>)
    requires CanonicalLog(log) && DistinctEvents(log)
    ensures DistinctTexts(log)
  {
    forall i, j | 0 <= i < j < |log|
      ensures log[i].content != log[j].content
    {
      assert log[i].id != log[j].id;
    }
  }

  lemma {:induction false} KeptTexts(x: Extractors, log: seq<Event>)
    requires CanonicalLog(log) && DistinctEvents(log)
    ensures DistinctTexts(Filter(log, Kept(x)))
  {
    CanonicalTexts(x, log);
    if log != [] {
      var before, e := log[..|log| - 1], log[|log| - 1];
      KeptTexts(x, before);
      var kept := Filter(before, Kept(x));
      forall i | 0 <= i < |kept|
        ensures kept[i].content != e.content
      {
        assert kept[i] in kept;
        var j :| 0 <= j < |before| && before[j] == kept[i];
        assert log[j].content != log[|log| - 1].content;
      }
    }
  }

  /** The replay theorem: from a canonical log a full rebuild leaves the log alone, recreates
      exactly one memory per event that is not noise, in log order, and its counters add up. */
  lemma RebuildRestores(x: Extractors, db: Db, envs: seq<Env>)
    requires Consistent(db) && SourcedEvents(db.events) && CanonicalLog(db.events) && db.events != []
    requires |envs| == |db.events| && Fresh(envs)
    ensures var (after, st) := Rebuilt(x, db, envs).value;
      var kept := Filter(db.events, Kept(x));
      && after.events == db.events
      && |after.rows| == |kept| && (forall k :: 0 <= k < |kept| ==> Restores(x, after.rows[k], kept[k]))
      && after.tags == TagsOfRows(x, after.rows) && after.fts == FtsOf(after.rows)
      && st.events == |db.events| == st.rebuilt + st.skipped && st.rebuilt == |kept|
    ensures Rebuilt(x, db, envs).value.0
         == Resolved(x, ClosedForm(x, db.events, envs, |envs|)).0
  {
    hide ReplayedRows, Recreates, TagsOfRows, SourcedEvents;
    var log, kept := db.events, Filter(db.events, Kept(x));
    PrefixAll(x, Wiped(db), log, envs);
    ReplayClosedForm(x, log, envs, |envs|);
    KeptTexts(x, log);
    RebuildRestoresIff(x, db, envs);
    forall k | 0 <= k < |kept|
      ensures kept[k].id == HashContent(kept[k].content)
    {
      assert kept[k] in kept;
      var j :| 0 <= j < |log| && log[j] == kept[k];
    }
    assert forall r, e :: Recreates(x, r, e) ==> r.rawEntry == HashContent(e.content) by {
      forall r, e { RecreatedEntry(x, r, e); }
    }
  }

  lemma RecreatedEntry(x: Extractors, r: Row, e: Event)
    ensures Recreates(x, r, e) ==> r.rawEntry == HashContent(e.content)
  {
  }

  // ---- renaming ----

  type Renaming = map<Id, Id>

  ghost predicate Injective(g: Renaming) {
    forall a, b :: a in g && b in g && g[a] == g[b] ==> a == b
  }

  function NewId(g: Renaming, id: Id): Id { if id in g then g[id] else id }

  function NewRow(g: Renaming): Row -> Row { (r: Row) => r.(id := NewId(g, r.id)) }

  function NewTags(g: Renaming, tags: set<(Id, string)>): set<(Id, string)> {
    set t | t in tags :: (NewId(g, t.0), t.1)
  }

  function NewLinks(g: Renaming, links: set<(Id, Id)>): set<(Id, Id)> {
    set l | l in links :: (NewId(g, l.0), NewId(g, l.1))
  }

  /** The same tables with every id renamed. */
  function NewDb(g: Renaming, db: Db): Db {
    var rows := Map(db.rows, NewRow(g));
    Db(db.events, rows, NewTags(g, db.tags), NewLinks(g, db.links), FtsOf(rows))
  }

  ghost predicate Named(g: Renaming, rows: seq<Row>) { forall r :: r in rows ==> r.id in g }

  ghost predicate LinksNamed(g: Renaming, links: set<(Id, Id)>) {
    forall l :: l in links ==> l.0 in g && l.1 in g
  }

  lemma NewLinksUnion(g: Renaming, a: set<(Id, Id)>, b: set<(Id, Id)>)
    ensures NewLinks(g, a + b) == NewLinks(g, a) + NewLinks(g, b)
  {
  }

  /** Renaming neither merges nor splits links. */
  lemma NewLinksSubset(g: Renaming, a: set<(Id, Id)>, b: set<(Id, Id)>)
    requires Injective(g) && LinksNamed(g, a) && LinksNamed(g, b)
    ensures NewLinks(g, a) <= NewLinks(g, b) <==> a <= b
  {
    if NewLinks(g, a) <= NewLinks(g, b) {
      forall l | l in a
        ensures l in b
      {
        var renamed := (NewId(g, l.0), NewId(g, l.1));
        assert renamed in NewLinks(g, a);
        var k :| k in b && (NewId(g, k.0), NewId(g, k.1)) == renamed;
        assert k == l;
      }
    }
  }

  ghost predicate SameIndex(g: Renaming, a: map<string, Row>, b: map<string, Row>) {
    a.Keys == b.Keys && forall t :: t in a ==> b[t] == NewRow(g)(a[t]) && a[t].id in g
  }

  lemma {:induction false} TitleIndexRenamed(x: Extractors, g: Renaming, listing: seq<Row>)
    requires Named(g, listing)
    ensures SameIndex(g, TitleIndex(x, listing), TitleIndex(x, Map(listing, NewRow(g))))
  {
    if listing != [] {
      var before, last := listing[..|listing| - 1], listing[|listing| - 1];
      assert listing == before + [last];
      assert Map(listing, NewRow(g))[..|listing| - 1] == Map(before, NewRow(g));
      TitleIndexRenamed(x, g, before);
    }
  }

  lemma {:induction false} LinksToRenamed(g: Renaming, a: map<string, Row>, b: map<string, Row>, r: Row,
                                          wiki: seq<string>)
    requires Injective(g) && SameIndex(g, a, b) && r.id in g
    ensures LinksTo(b, NewRow(g)(r), wiki) == NewLinks(g, LinksTo(a, r, wiki))
    ensures LinksNamed(g, LinksTo(a, r, wiki))
  {
    if wiki != [] {
      var n := |wiki| - 1;
      LinksToRenamed(g, a, b, r, wiki[..n]);
      var w := Lower(wiki[n]);
      if w in a && a[w].id != r.id {
        var added := {(r.id, a[w].id), (a[w].id, r.id)};
        assert NewLinks(g, added) == {(g[r.id], g[a[w].id]), (g[a[w].id], g[r.id])};
        NewLinksUnion(g, LinksTo(a, r, wiki[..n]), added);
      }
    }
  }

  lemma {:induction false} ResolvedFromRenamed(x: Extractors, g: Renaming, a: map<string, Row>,
                                               b: map<string, Row>, listing: seq<Row>)
    requires Injective(g) && SameIndex(g, a, b) && Named(g, listing)
    ensures var before, after := ResolvedFrom(x, a, listing, {}), ResolvedFrom(x, b, Map(listing, NewRow(g)), {});
      after.0 == NewLinks(g, before.0) && after.1 == before.1 && LinksNamed(g, before.0)
  {
    if listing != [] {
      var first, last := listing[..|listing| - 1], listing[|listing| - 1];
      assert listing == first + [last];
      assert Map(listing, NewRow(g))[..|listing| - 1] == Map(first, NewRow(g));
      ResolvedFromRenamed(x, g, a, b, first);
      LinksToRenamed(g, a, b, last, x.wikiLinks(last.content));
      var links, asked := ResolvedFrom(x, a, first, {}).0, LinksOf(x, a, last);
      NewLinksUnion(g, links, asked);
      NewLinksSubset(g, asked, links);
    }
  }

  /** Resolving the wiki-links of renamed rows gives the renamed links. */
  lemma ResolvedRenamed(x: Extractors, g: Renaming, db: Db)
    requires Injective(g) && Named(g, db.rows) && db.links == {} && db.fts == FtsOf(db.rows)
    ensures Resolved(x, NewDb(g, db)).0 == NewDb(g, Resolved(x, db).0)
    ensures Resolved(x, NewDb(g, db)).1 == Resolved(x, db).1
  {
    var listing := Listing(db.rows);
    MapStableSort(db.rows, NewRow(g), CreatedAt, CreatedAt);
    assert Listing(NewDb(g, db).rows) == Map(listing, NewRow(g));
    TitleIndexRenamed(x, g, listing);
    ResolvedFromRenamed(x, g, TitleIndex(x, listing), TitleIndex(x, Map(listing, NewRow(g))), listing);
    assert NewLinks(g, {}) == {};
  }

  /** The renaming that takes the ids of one replay to those of another. */
  function RenamingOf(before: seq<Env>, after: seq<Env>): (g: Renaming)
    requires |before| == |after| && Fresh(before)
    ensures forall i :: 0 <= i < |before| ==> before[i].uuid in g && g[before[i].uuid] == after[i].uuid
    ensures forall id :: id in g ==> exists i :: 0 <= i < |before| && before[i].uuid == id
  {
    map i | 0 <= i < |before| :: before[i].uuid := after[i].uuid
  }

  lemma RenamingInjective(before: seq<Env>, after: seq<Env>)
    requires |before| == |after| && Fresh(before) && Fresh(after)
    ensures Injective(RenamingOf(before, after))
  {
  }

  lemma {:induction false} ReplayedRowsRenamed(x: Extractors, log: seq<Event>, before: seq<Env>, after: seq<Env>,
                                               n: nat)
    requires n <= |log| == |before| == |after| && Fresh(before)
    ensures var g := RenamingOf(before, after);
      ReplayedRows(x, log, after, n) == Map(ReplayedRows(x, log, before, n), NewRow(g))
      && Named(g, ReplayedRows(x, log, before, n))
    decreases n
  {
    hide RowOf, ReplayMemory, RenamingOf, Fresh, NewRow;
    assert n == 0 ==> Map<Row, Row>([], NewRow(RenamingOf(before, after))) == [];
    if n > 0 {
      ReplayedRowsRenamed(x, log, before, after, n - 1);
      if !x.noise(log[n - 1].content) {
        RowRenamed(x, log[n - 1], before, after, n - 1);
        var rows := ReplayedRows(x, log, before, n - 1);
        var f := NewRow(RenamingOf(before, after));
        MapAppend(rows, RowOf(x, ReplayMemory(log[n - 1], before[n - 1])), f);
      }
    }
  }

  lemma RowRenamed(x: Extractors, e: Event, before: seq<Env>, after: seq<Env>, i: nat)
    requires i < |before| == |after| && Fresh(before)
    ensures var r, g := RowOf(x, ReplayMemory(e, before[i])), RenamingOf(before, after);
      r.id in g && NewRow(g)(r) == RowOf(x, ReplayMemory(e, after[i]))
  {
  }

  lemma TagsRenamed(x: Extractors, g: Renaming, rows: seq<Row>)
    ensures TagsOfRows(x, Map(rows, NewRow(g))) == NewTags(g, TagsOfRows(x, rows))
  {
    var renamed := Map(rows, NewRow(g));
    forall p | p in TagsOfRows(x, renamed)
      ensures p in NewTags(g, TagsOfRows(x, rows))
    {
      var r :| r in renamed && p in OwnTags(x, r);
      var i :| 0 <= i < |renamed| && renamed[i] == r;
      assert (rows[i].id, p.1) in OwnTags(x, rows[i]);
      assert (rows[i].id, p.1) in TagsOfRows(x, rows);
    }
    forall p | p in NewTags(g, TagsOfRows(x, rows))
      ensures p in TagsOfRows(x, renamed)
    {
      var t :| t in TagsOfRows(x, rows) && p == (NewId(g, t.0), t.1);
      var r :| r in rows && t in OwnTags(x, r);
      var i :| 0 <= i < |rows| && rows[i] == r;
      assert p in OwnTags(x, renamed[i]);
      assert renamed[i] in renamed;
    }
  }

  /** Rebuilding again after a rebuild reaches the same tables, with the ids renamed one to one. */
  lemma SecondRebuildSameUpToIds(x: Extractors, db: Db, first: seq<Env>, second: seq<Env>)
    requires Consistent(db) && SourcedEvents(db.events) && CanonicalLog(db.events) && db.events != []
    requires |first| == |second| == |db.events| && Fresh(first) && Fresh(second)
    ensures var once := Rebuilt(x, db, first).value.0;
      && once.events == db.events
      && Rebuilt(x, once, second).value.0 == NewDb(RenamingOf(first, second), once)
      && Injective(RenamingOf(first, second))
  {
    var g := RenamingOf(first, second);
    var once := Rebuilt(x, db, first).value.0;
    var n := |first|;
    RebuildRestores(x, db, first);
    RebuildKeeps(x, db, first);
    RebuildRestores(x, once, second);
    RenamingInjective(first, second);
    ReplayedRowsRenamed(x, db.events, first, second, n);
    TagsRenamed(x, g, ReplayedRows(x, db.events, first, n));
    assert NewLinks(g, {}) == {};
    assert ClosedForm(x, db.events, second, n) == NewDb(g, ClosedForm(x, db.events, first, n));
    ResolvedRenamed(x, g, ClosedForm(x, db.events, first, n));
  }

  /** The replay theorem over runs: after any commands with canonical hashes, deletes and earlier
      rebuilds included, a rebuild restores one memory per event that is not noise, and a second
      one reaches the same tables under new ids. */
  lemma CanonicalRunRebuilds(x: Extractors, cmds: seq<Command>, first: seq<Env>, second: seq<Env>)
    requires forall c :: c in cmds ==> Canonical(c)
    requires Run(x, EMPTY_DB, cmds).events != []
    requires |first| == |second| == |Run(x, EMPTY_DB, cmds).events| && Fresh(first) && Fresh(second)
    ensures var db := Run(x, EMPTY_DB, cmds);
      var (once, st) := Rebuilt(x, db, first).value;
      var kept := Filter(db.events, Kept(x));
      && once.events == db.events
      && |once.rows| == |kept| && (forall k :: 0 <= k < |kept| ==> Restores(x, once.rows[k], kept[k]))
      && st.events == st.rebuilt + st.skipped && st.skipped == |db.events| - |kept|
      && Rebuilt(x, once, second).value.0 == NewDb(RenamingOf(first, second), once)
      && Injective(RenamingOf(first, second))
  {
    hide *;
    ReachableKeeps(x, cmds);
    forall c { CanonicalIsSound(c); }
    RunSourced(x, cmds);
    RebuildRestores(x, Run(x, EMPTY_DB, cmds), first);
    SecondRebuildSameUpToIds(x, Run(x, EMPTY_DB, cmds), first, second);
  }
}
