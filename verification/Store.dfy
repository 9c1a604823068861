/** The SQLite store: the tables as fields, the write path as methods that change them in place. */
module Store {
  import opened Lists
  import opened Text
  import opened Consumers
  import opened Tables
  import opened Promises
  import opened Runs

  function Topic(m: Memory): Row -> bool { (r: Row) => SameTopic(r, m) }

  /** The loop of normalizeTags, with its seen set. */
  method NormalizeTags(tags: seq<string>) returns (out: seq<string>)
    ensures out == NormalizedTags(tags)
  {
    var seen: set<string> := {};
    out := [];
    for i := 0 to |tags|
      invariant out == NormalizedTags(tags[..i])
      invariant forall t :: t in seen <==> t in out
    {
      assert tags[..i + 1][..i] == tags[..i];
      var t := Trim(tags[i]);
      if t != "" && t !in seen {
        seen := seen + {t};
        out := out + [t];
      }
    }
    assert tags[..|tags|] == tags;
  }

  /** The body of the loops of mergeTags: keeps a tag whose folded key is not seen yet. */
  method KeepUnseen(tags: seq<string>, seen: set<string>, t: string) returns (out: seq<string>, seen': set<string>)
    requires seen == TagKeys(tags)
    ensures out == KeepNew(tags, t) && seen' == TagKeys(out)
  {
    if t == "" || TagKey(t) in seen {
      return tags, seen;
    }
    out, seen' := tags + [t], seen + {TagKey(t)};
    assert t in out;
  }

  lemma DropRepeatsNext(before: seq<string>, add: seq<string>, i: nat)
    requires i < |add|
    ensures DropRepeats(before + add[..i + 1]) == KeepNew(DropRepeats(before + add[..i]), add[i])
  {
    var next := before + add[..i + 1];
    assert next[..|next| - 1] == before + add[..i];
  }

  method KeepAllUnseen(tags: seq<string>, seen: set<string>, add: seq<string>, ghost before: seq<string>)
    returns (out: seq<string>, seen': set<string>)
    requires tags == DropRepeats(before) && seen == TagKeys(tags)
    ensures out == DropRepeats(before + add) && seen' == TagKeys(out)
  {
    out, seen' := tags, seen;
    assert before + add[..0] == before;
    for i := 0 to |add|
      invariant out == DropRepeats(before + add[..i]) && seen' == TagKeys(out)
    {
      DropRepeatsNext(before, add, i);
      out, seen' := KeepUnseen(out, seen', add[i]);
    }
    assert before + add[..|add|] == before + add;
  }

  method MergeTags(existing: seq<string>, extra: seq<string>) returns (out: seq<string>)
    ensures out == MergedTags(existing, extra)
  {
    var seen: set<string>;
    out, seen := KeepAllUnseen([], {}, existing, []);
    assert [] + existing == existing;
    out, seen := KeepAllUnseen(out, seen, extra, existing);
  }

  lemma SupersedeMore(rows: seq<Row>, ids: set<Id>, id: Id, newId: Id)
    ensures SupersedeRows(SupersedeRows(rows, ids, newId), {id}, newId) == SupersedeRows(rows, ids + {id}, newId)
  {
  }

  method CountShared(terms: seq<string>, newTerms: seq<string>) returns (shared: nat)
    ensures shared == SharedTerms(terms, newTerms)
  {
    shared := 0;
    for j := 0 to |terms|
      invariant shared == SharedTerms(terms[..j], newTerms)
    {
      assert terms[..j + 1][..j] == terms[..j];
      if terms[j] in newTerms {
        shared := shared + 1;
      }
    }
    assert terms[..|terms|] == terms;
  }

  class SqliteStore {
    const x: Extractors
    var events: seq<Event>
    var rows: seq<Row>
    var tags: set<(Id, string)>
    var links: set<(Id, Id)>
    var fts: seq<FtsRow>

    function State(): Db
      reads this
    {
      Db(events, rows, tags, links, fts)
    }

    constructor (extractors: Extractors)
      ensures State() == EMPTY_DB && x == extractors
    {
      x := extractors;
      events, rows, tags, links, fts := [], [], {}, {}, [];
    }

    /** The write chokepoint: gate, transaction, then the supersede check after the commit. */
    method IngestMemory(req: Request, env: Env) returns (r: Result<Id, IngestError>)
      modifies this
      ensures (State(), r) == Ingested(x, old(State()), req, env)
      ensures old(Consistent(State())) ==> Writes(x, old(State()), req, env, State(), r)
    {
      hide Writes, Consistent;
      if Consistent(State()) {
        IngestWrites(x, State(), req, env);
      }
      var gated := Validate(req, env);
      if gated.Err? {
        return Err(gated.error);
      }
      var m := gated.value;
      var inserted := InsertMemory(m, env.now);
      if inserted.None? {
        return Err(DuplicateId);
      }
      if IsFact(m.phase) {
        var superseded := CheckAndSupersede(m, inserted.value);  // the count is ignored
      } else {
        assert SupersedeRows(rows, {}, inserted.value) == rows;
      }
      r := Ok(inserted.value);
    }

    /** The command gate: nothing is written for a rejected command. */
    method Validate(req: Request, env: Env) returns (r: Result<Memory, IngestError>)
      ensures r == Gate(req, env)
    {
      var content := Trim(req.content);
      if content == "" {
        return Err(EmptyContent);
      }
      if ByteLen(content) > MAX_CONTENT_LEN {
        return Err(ContentTooLarge);
      }
      if req.phase != Inbox && req.phase != Processed && req.phase != Organized {
        return Err(InvalidPhase);
      }
      var category := req.category;
      if category != Unset && category != InboxCategory && !IsValidCategory(category) {
        category := InboxCategory;
      }
      var clean := NormalizeTags(req.tags);
      r := Ok(Memory(
        if req.id == "" then env.uuid else req.id, content,
        if req.hash.None? then HashContent(content) else req.hash.value,
        req.phase, category, req.scope, clean, req.source,
        if req.createdAt.None? then env.now else req.createdAt.value, req.prov, req.mask, req.metadata));
    }

    method InsertMemory(m: Memory, now: int) returns (id: Option<Id>)
      modifies this
      ensures match Inserted(x, old(State()), m, now)
        case None => id == None && State() == old(State())
        case Some((db, adopted)) => id == Some(adopted) && State() == db
    {
      hide BackfillEvents, AppendEvent, MergedTags, BackfillRows, RowOf, TagRows, HasId;
      var eventsBefore := events;
      events := AppendEvent(events, EventOf(m, now));
      events := BackfillEvents(events, m.hash, m.prov);
      var merged := MergeTags(m.tags, x.keywords(m.content));
      var existing := FindByHash(rows, m.hash);
      if existing.Some? {
        rows := BackfillRows(rows, existing.value, m.prov);
        AddTags(existing.value, merged);
        return existing;
      }
      if HasId(rows, m.id) {
        events := eventsBefore;  // the primary key rejects the row: roll back
        return None;
      }
      var row := RowOf(x, m);
      rows := rows + [row];
      AddTags(m.id, merged);
      fts := fts + [FtsOfRow(row)];
      id := Some(m.id);
    }

    /** One INSERT OR IGNORE INTO tags per tag. */
    method AddTags(id: Id, add: seq<string>)
      modifies this`tags
      ensures tags == old(tags) + TagRows(id, add)
    {
      for i := 0 to |add|
        invariant tags == old(tags) + TagRows(id, add[..i])
      {
        tags := tags + {(id, add[i])};
        TagRowsAppend(id, add[..i], add[i]);
        assert add[..i + 1] == add[..i] + [add[i]];
      }
      assert add[..|add|] == add;
    }

    method CheckAndSupersede(m: Memory, id: Id) returns (superseded: nat)
      modifies this`rows
      ensures rows == SupersedeRows(old(rows), Overtaken(x, old(rows), m, id), id)
      ensures old(DistinctIds(rows)) ==>
        && MarksReplaced(x, old(rows), rows, Arrives(x, m, id))
        && superseded == |ReplacedRows(x, old(rows), Arrives(x, m, id))|
    {
      hide MarksReplaced, ReplacedRows, Filter, StableSort;
      NoneReplaced(x, rows, m, id);
      if DistinctIds(rows) {
        SupersedeMarks(x, rows, m, id);
        ListedApart(rows, m);
        ReplacedListed(x, rows, m, id);
      }
      superseded := 0;
      if !IsFact(m.phase) {
        assert rows == SupersedeRows(rows, {}, id);
        return;
      }
      var existing := Listing(Filter(rows, Topic(m)));
      assert old(DistinctIds(rows)) ==> NoRepeats(existing);
      hide DistinctIds;
      var newTerms := x.terms(m.content);
      if |newTerms| < 2 {
        assert rows == SupersedeRows(rows, {}, id);
        return;
      }
      ghost var marked: set<Id> := {};
      assert rows == SupersedeRows(old(rows), marked, id);
      for i := 0 to |existing|
        invariant rows == SupersedeRows(old(rows), marked, id)
        invariant marked == OvertakenIn(x, existing[..i], m, id)
        invariant NoRepeats(existing) ==> superseded == |OvertakenRows(x, existing[..i], m, id)|
      {
        var r := existing[i];
        if NoRepeats(existing) {
          NotInPrefix(existing, i);
          OneMoreOvertaken(x, existing[..i], r, m, id);
        }
        OvertakenAppend(x, existing[..i], r, m, id);
        assert existing[..i + 1] == existing[..i] + [r];
        assert SameTopic(r, m) by { assert r in existing && Topic(m)(r); }
        if r.id == id || r.createdAt * NANOS >= m.createdAt || IsSuperseded(r.metadata) {
          continue;
        }
        var shared := CountShared(x.terms(r.content), newTerms);
        if shared >= 3 {
          SupersedeMore(old(rows), marked, r.id, id);
          rows := SupersedeRows(rows, {r.id}, id);
          marked := marked + {r.id};
          superseded := superseded + 1;
        }
      }
      assert existing[..|existing|] == existing;
      OvertakenIsListed(x, old(rows), m, id);
    }

    method Delete(id: string) returns (found: Lookup)
      modifies this
      ensures (State(), found) == Deleted(old(State()), id)
      ensures old(Consistent(State())) ==>
        && Locates(old(rows), id, found)
        && if found.Found? then TakesOut(old(State()), found.id, State()) else State() == old(State())
    {
      hide Locates, TakesOut, Consistent;
      if Consistent(State()) {
        DeleteTakesOut(State(), id);
      }
      found := ResolveId(rows, id);
      if !found.Found? {
        return;
      }
      fts := Filter(fts, NotFtsId(found.id));
      rows := Filter(rows, NotId(found.id));
      // ON DELETE CASCADE from tags.memory_id and links.source_id
      tags := set t | t in tags && t.0 != found.id;
      links := set l | l in links && l.0 != found.id;
    }

    method MarkConsumed(id: string, processor: string)
      modifies this`rows
      ensures rows == MarkRows(old(rows), id, ConsumerByName(processor))
      ensures Marks(old(rows), rows, id, processor)
    {
      hide Marks;
      MarkKeepsPromise(rows, id, processor);
      var c := ConsumerByName(processor);
      if c == Unknown {
        assert rows == MarkRows(rows, id, c);
        return;
      }
      rows := MarkRows(rows, id, c);
    }

    method LinkMemories(a: string, b: string) returns (ok: bool)
      modifies this`links
      ensures State() == Linked(old(State()), a, b)
      ensures ok <==> HasId(rows, a) && HasId(rows, b)
      ensures forall l :: l in links <==> l in old(links) || (ok && (l == (a, b) || l == (b, a)))
    {
      if !HasId(rows, a) || !HasId(rows, b) {
        return false;
      }
      links := links + {(a, b)};
      links := links + {(b, a)};
      assert State().links == old(links) + {(a, b), (b, a)};
      ok := true;
    }

    method UnlinkMemories(a: string, b: string) returns (ok: bool)
      modifies this`links
      ensures State() == Unlinked(old(State()), a, b)
      ensures ok <==> HasId(rows, a) && HasId(rows, b)
      ensures forall l :: l in links <==> l in old(links) && !(ok && (l == (a, b) || l == (b, a)))
    {
      if !HasId(rows, a) || !HasId(rows, b) {
        return false;
      }
      links := links - {(a, b), (b, a)};
      ok := true;
    }

    /** Turns [[wiki-links]] into link rows in both directions; counts the rows that added one. */
    method ResolveBacklinks() returns (count: nat)
      modifies this`links
      ensures (State(), count) == Resolved(x, old(State()))
      ensures NoRepeats(rows) ==> Resolves(x, rows, old(links), links, count)
    {
      hide Resolves, NoRepeats, LinksOf, TitleIndex, StableSort;
      if NoRepeats(rows) {
        ResolveKeepsPromise(x, State());
      }
      var all := Listing(rows);
      var titleIndex := BuildTitleIndex(all);
      count := 0;
      for i := 0 to |all|
        invariant (links, count) == ResolvedFrom(x, titleIndex, all[..i], old(links))
      {
        assert all[..i + 1][..i] == all[..i];
        var changed := AddLinks(all[i], titleIndex);
        if changed {
          count := count + 1;
        }
      }
      assert all[..|all|] == all;
    }

    method BuildTitleIndex(all: seq<Row>) returns (titleIndex: map<string, Row>)
      ensures titleIndex == TitleIndex(x, all)
    {
      titleIndex := map[];
      for i := 0 to |all|
        invariant titleIndex == TitleIndex(x, all[..i])
      {
        assert all[..i + 1][..i] == all[..i];
        var title := x.title(all[i].content);
        if title != "" {
          titleIndex := titleIndex[Lower(title) := all[i]];
        }
      }
      assert all[..|all|] == all;
    }

    /** The inner loop: the links one listed row's wiki-links ask for. */
    method AddLinks(r: Row, titleIndex: map<string, Row>) returns (changed: bool)
      modifies this`links
      ensures links == old(links) + LinksOf(x, titleIndex, r)
      ensures changed <==> !(LinksOf(x, titleIndex, r) <= old(links))
    {
      var wiki := x.wikiLinks(r.content);
      changed := false;
      for i := 0 to |wiki|
        invariant links == old(links) + LinksTo(titleIndex, r, wiki[..i])
        invariant changed <==> !(LinksTo(titleIndex, r, wiki[..i]) <= old(links))
      {
        assert wiki[..i + 1][..i] == wiki[..i];
        ghost var before := links;
        var w := Lower(wiki[i]);
        if w !in titleIndex || titleIndex[w].id == r.id {
          continue;
        }
        var target := titleIndex[w].id;
        if (r.id, target) !in links {
          links := links + {(r.id, target)};
          changed := true;
        }
        if (target, r.id) !in links {
          links := links + {(target, r.id)};
          changed := true;
        }
        assert links == before + {(r.id, target), (target, r.id)};
      }
      assert wiki[..|wiki|] == wiki;
    }

    /** Rebuilds the full-text index, the links and the keyword tags, leaving the rows alone. */
    method RebuildIndexes() returns (st: Stats)
      modifies this`fts, this`links, this`tags
      ensures (State(), st) == Reindexed(x, old(State()))
      ensures NoRepeats(rows) ==> Reindexes(x, old(State()), State(), st)
    {
      hide Resolved, KeywordTags, Resolves, Reindexes;
      if NoRepeats(rows) {
        ReindexKeepsPromise(x, State());
      }
      fts := FtsOf(rows);
      links := {};
      assert State() == old(State()).(fts := FtsOf(old(rows)), links := {});
      var resolved := ResolveBacklinks();
      ghost var linked := State();
      var added := AddKeywordTags();
      assert State() == linked.(tags := old(tags) + KeywordTags(x, old(rows)));
      st := Stats(0, 0, 0, |fts|, resolved, added);
    }

    /** The free-layer tags an older version of the extractor missed. */
    method AddKeywordTags() returns (added: int)
      modifies this`tags
      ensures tags == old(tags) + KeywordTags(x, rows)
      ensures added == |tags| - |old(tags)|
    {
      hide KeywordTags, TagRows, Listing;
      var memories := Listing(rows);
      added := 0;
      assert tags == old(tags) + KeywordTags(x, memories[..0]) by { NoKeywordTags(x, memories[..0]); }
      for i := 0 to |memories|
        invariant tags == old(tags) + KeywordTags(x, memories[..i])
        invariant added == |tags| - |old(tags)|
      {
        KeywordTagsStep(x, memories, i);
        var n := AddMissingTags(memories[i].id, x.keywords(memories[i].content));
        added := added + n;
      }
      assert memories[..|memories|] == memories;
      KeywordTagsOfListing(x, rows);
    }

    method AddMissingTags(id: Id, add: seq<string>) returns (n: nat)
      modifies this`tags
      ensures tags == old(tags) + TagRows(id, add)
      ensures n == |tags| - |old(tags)|
    {
      n := 0;
      for i := 0 to |add|
        invariant tags == old(tags) + TagRows(id, add[..i])
        invariant n == |tags| - |old(tags)|
      {
        TagRowsAppend(id, add[..i], add[i]);
        assert add[..i + 1] == add[..i] + [add[i]];
        if (id, add[i]) !in tags {
          tags := tags + {(id, add[i])};
          n := n + 1;
        }
      }
      assert add[..|add|] == add;
    }

    /** The body of the replay loop. */
    method ReplayEvent(e: Event, env: Env, before: Stats) returns (st: Stats)
      modifies this
      ensures (State(), st) == ReplayOne(x, old(State()), before, e, env)
    {
      if x.noise(e.content) {
        return Tallied(before, false);
      }
      var ingested := IngestMemory(ReplayRequest(e), env);
      st := Tallied(before, ingested.Ok?);
    }

    /** Wipes the derived tables and replays the event log in order through IngestMemory. */
    method RebuildFromEvents(envs: seq<Env>) returns (r: Option<Stats>)
      requires |envs| == |events|
      modifies this
      ensures match Rebuilt(x, old(State()), envs)
        case None => r == None && State() == old(State())
        case Some((db, st)) => r == Some(st) && State() == db
    {
      var log := events;
      if log == [] {
        return None;
      }
      rows, tags, links, fts := [], {}, {}, [];
      ghost var wiped := State();
      var st := NO_STATS;
      for i := 0 to |log|
        invariant (State(), st) == Replayed(x, wiped, log[..i], envs[..i])
      {
        assert log[..i + 1][..i] == log[..i] && envs[..i + 1][..i] == envs[..i];
        st := ReplayEvent(log[i], envs[i], st);
      }
      assert log[..|log|] == log && envs[..|envs|] == envs;
      var resolved := ResolveBacklinks();
      r := Some(st.(events := |log|, links := resolved));
    }
  }

  lemma TagRowsAppend(id: Id, tags: seq<string>, t: string)
    ensures TagRows(id, tags + [t]) == TagRows(id, tags) + {(id, t)}
  {
    assert t in tags + [t];
  }

  lemma OvertakenAppend(x: Extractors, rows: seq<Row>, r: Row, m: Memory, id: Id)
    ensures OvertakenIn(x, rows + [r], m, id)
         == OvertakenIn(x, rows, m, id) + (if Overtakes(x, r, m, id) then {r.id} else {})
  {
    hide Overtakes;
    assert r in rows + [r];
  }

  /** The rows the write overtakes. */
  ghost function OvertakenRows(x: Extractors, rows: seq<Row>, m: Memory, id: Id): set<Row> {
    set r | r in rows && Overtakes(x, r, m, id)
  }

  lemma OneMoreOvertaken(x: Extractors, rows: seq<Row>, r: Row, m: Memory, id: Id)
    requires r !in rows
    ensures |OvertakenRows(x, rows + [r], m, id)|
         == |OvertakenRows(x, rows, m, id)| + if Overtakes(x, r, m, id) then 1 else 0
  {
    hide Overtakes;
    assert OvertakenRows(x, rows + [r], m, id)
        == OvertakenRows(x, rows, m, id) + if Overtakes(x, r, m, id) then {r} else {};
  }

  lemma NoneReplaced(x: Extractors, rows: seq<Row>, m: Memory, id: Id)
    ensures !IsFact(m.phase) || |x.terms(m.content)| < 2 ==> |ReplacedRows(x, rows, Arrives(x, m, id))| == 0
  {
    hide CommonAt;
    assert !IsFact(m.phase) || |x.terms(m.content)| < 2 ==> ReplacedRows(x, rows, Arrives(x, m, id)) == {};
  }

  lemma ListedApart(rows: seq<Row>, m: Memory)
    requires DistinctIds(rows)
    ensures NoRepeats(Listing(Filter(rows, Topic(m))))
  {
    FilterNoRepeats(rows, Topic(m));
    SortNoRepeats(Filter(rows, Topic(m)), CreatedAt);
  }

  lemma ReplacedListed(x: Extractors, rows: seq<Row>, m: Memory, id: Id)
    ensures IsFact(m.phase) && |x.terms(m.content)| >= 2 ==>
      OvertakenRows(x, Listing(Filter(rows, Topic(m))), m, id) == ReplacedRows(x, rows, Arrives(x, m, id))
  {
    hide Overtakes, Replaces;
    forall r { OvertakesReplaces(x, r, m, id); }
    assert forall r :: r in rows && Overtakes(x, r, m, id) ==> Topic(m)(r) by {
      forall r | Overtakes(x, r, m, id) { OvertakesTopic(x, r, m, id); }
    }
  }

  lemma OvertakesTopic(x: Extractors, r: Row, m: Memory, id: Id)
    requires Overtakes(x, r, m, id)
    ensures Topic(m)(r)
  {
    hide SharedTerms;
  }

  lemma OvertakenIsListed(x: Extractors, rows: seq<Row>, m: Memory, id: Id)
    ensures OvertakenIn(x, Listing(Filter(rows, Topic(m))), m, id) == OvertakenIn(x, rows, m, id)
  {
    assert forall r :: r in rows && Overtakes(x, r, m, id) ==> Topic(m)(r);
  }

  lemma KeywordTagsStep(x: Extractors, rows: seq<Row>, i: nat)
    requires i < |rows|
    ensures KeywordTags(x, rows[..i + 1])
         == KeywordTags(x, rows[..i]) + TagRows(rows[i].id, x.keywords(rows[i].content))
  {
    assert rows[..i + 1] == rows[..i] + [rows[i]];
    assert rows[i] in rows[..i + 1];
  }

  lemma NoKeywordTags(x: Extractors, rows: seq<Row>)
    requires rows == []
    ensures KeywordTags(x, rows) == {}
  {
  }

  /** The tag set does not depend on the order the rows are listed in. */
  lemma KeywordTagsOfListing(x: Extractors, rows: seq<Row>)
    ensures KeywordTags(x, Listing(rows)) == KeywordTags(x, rows)
  {
    assert forall r :: r in Listing(rows) <==> r in rows;
  }
}
