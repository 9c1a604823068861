/** The link table: symmetric between live memories, and resolved from the rows' own text. */
module Links {
  import opened Text
  import opened Consumers
  import opened Tables
  import opened Runs

  /** Between two live memories a link goes both ways or not at all. */
  ghost predicate Symmetric(db: Db) {
    forall a: Id, b: Id :: HasId(db.rows, a) && HasId(db.rows, b) ==>
      ((a, b) in db.links <==> (b, a) in db.links)
  }

  /** A deleted memory's id may linger as the target of links of others. */
  ghost predicate NoLinkTo(links: set<(Id, Id)>, id: Id) {
    forall l :: l in links ==> l.1 != id
  }

  lemma HasIdAppend(rows: seq<Row>, row: Row, id: string)
    ensures HasId(rows + [row], id) <==> HasId(rows, id) || id == row.id
  {
    if HasId(rows, id) {
      var i :| 0 <= i < |rows| && rows[i].id == id;
      assert (rows + [row])[i].id == id;
    }
    if id == row.id {
      assert (rows + [row])[|rows|].id == id;
    }
  }

  /** A new row keeps the symmetry exactly when nothing still links to its id. */
  lemma NewRowSymmetricIff(db: Db, row: Row)
    requires Consistent(db) && Symmetric(db) && !HasId(db.rows, row.id)
    ensures Symmetric(db.(rows := db.rows + [row])) <==> NoLinkTo(db.links, row.id)
  {
    var after := db.(rows := db.rows + [row]);
    forall id: string { HasIdAppend(db.rows, row, id); }
    if Symmetric(after) {
      forall l | l in db.links
        ensures l.1 != row.id
      {
        assert HasId(db.rows, l.0) && HasId(after.rows, row.id);
        assert (l.1, l.0) in db.links ==> HasId(db.rows, (l.1, l.0).0);
      }
    }
    if NoLinkTo(db.links, row.id) {
      forall a: Id, b: Id | HasId(after.rows, a) && HasId(after.rows, b)
        ensures (a, b) in after.links <==> (b, a) in after.links
      {
        assert (a, b) in db.links ==> HasId(db.rows, (a, b).0) && (a, b).1 != row.id;
        assert (b, a) in db.links ==> HasId(db.rows, (b, a).0) && (b, a).1 != row.id;
      }
    }
  }

  lemma SameIdsSymmetric(db: Db, rows: seq<Row>)
    requires Symmetric(db) && forall id: Id :: HasId(rows, id) ==> HasId(db.rows, id)
    ensures Symmetric(db.(rows := rows))
  {
  }

  /** The id a write uses for a row of its own, if it makes one. */
  ghost predicate FreshTarget(db: Db, c: Command) {
    c.DoIngest? && Gate(c.req, c.env).Ok? ==> NoLinkTo(db.links, Gate(c.req, c.env).value.id)
  }

  lemma InsertedSymmetric(x: Extractors, db: Db, m: Memory, now: int)
    requires Consistent(db) && Symmetric(db) && NoLinkTo(db.links, m.id) && Inserted(x, db, m, now).Some?
    ensures var after := Inserted(x, db, m, now).value.0; after.links == db.links && Symmetric(after)
  {
    if FindByHash(db.rows, m.hash).None? {
      NewRowSymmetricIff(db, RowOf(x, m));
    } else {
      SameRowsKeep(db.events, db.rows, BackfillRows(db.rows, FindByHash(db.rows, m.hash).value, m.prov));
      SameIdsSymmetric(db, BackfillRows(db.rows, FindByHash(db.rows, m.hash).value, m.prov));
    }
  }

  lemma IngestSymmetric(x: Extractors, db: Db, req: Request, env: Env)
    requires Consistent(db) && Symmetric(db) && FreshTarget(db, DoIngest(req, env))
    ensures Symmetric(Ingested(x, db, req, env).0)
  {
    hide Gate, Symmetric, Inserted, Overtaken;
    if Gate(req, env).Ok? {
      var m := Gate(req, env).value;
      if Inserted(x, db, m, env.now).Some? {
        InsertedSymmetric(x, db, m, env.now);
        InsertKeeps(x, db, m, env.now);
        var (db', id) := Inserted(x, db, m, env.now).value;
        var marked := SupersedeRows(db'.rows, Overtaken(x, db'.rows, m, id), id);
        SameRowsKeep(db'.events, db'.rows, marked);
        SameIdsSymmetric(db', marked);
      }
    }
  }

  // ---- what ResolveBacklinks adds ----

  /** The last listed row with the folded title is the one a wiki-link means. */
  ghost predicate Means(x: Extractors, listing: seq<Row>, title: string, target: Row) {
    exists k :: 0 <= k < |listing| && listing[k] == target && HasTitle(x, target, title)
      && forall j :: k < j < |listing| ==> !HasTitle(x, listing[j], title)
  }

  predicate HasTitle(x: Extractors, r: Row, title: string) {
    x.title(r.content) != "" && Lower(x.title(r.content)) == title
  }

  /** Row r's text links to the row with id b. */
  ghost predicate Wants(x: Extractors, listing: seq<Row>, r: Row, b: Id) {
    exists w, t :: w in x.wikiLinks(r.content) && Means(x, listing, Lower(w), t) && t.id == b != r.id
  }

  ghost predicate WantsAny(x: Extractors, listing: seq<Row>, a: Id, b: Id) {
    exists r :: r in listing && r.id == a && Wants(x, listing, r, b)
  }

  lemma {:induction false} TitleIndexMeans(x: Extractors, listing: seq<Row>, title: string)
    ensures title in TitleIndex(x, listing) ==> Means(x, listing, title, TitleIndex(x, listing)[title])
    ensures title !in TitleIndex(x, listing) ==> forall r :: r in listing ==> !HasTitle(x, r, title)
  {
    if listing != [] {
      var n := |listing| - 1;
      var before, last := listing[..n], listing[n];
      TitleIndexMeans(x, before, title);
      assert listing == before + [last];
      if HasTitle(x, last, title) {
        assert listing[n] == last;
      } else if title in TitleIndex(x, before) {
        var t := TitleIndex(x, before)[title];
        var k :| 0 <= k < n && before[k] == t && HasTitle(x, t, title)
          && forall j :: k < j < n ==> !HasTitle(x, before[j], title);
        assert listing[k] == t;
        assert forall j :: k < j < |listing| ==> !HasTitle(x, listing[j], title);
      }
    }
  }

  lemma MeansUnique(x: Extractors, listing: seq<Row>, title: string, s: Row, t: Row)
    requires Means(x, listing, title, s) && Means(x, listing, title, t)
    ensures s == t
  {
  }

  lemma IndexIsMeaning(x: Extractors, listing: seq<Row>, title: string, t: Row)
    ensures Means(x, listing, title, t) <==>
      title in TitleIndex(x, listing) && TitleIndex(x, listing)[title] == t
  {
    TitleIndexMeans(x, listing, title);
    if Means(x, listing, title, t) {
      assert t in listing;
      MeansUnique(x, listing, title, TitleIndex(x, listing)[title], t);
    }
  }

  lemma {:induction false} LinksToAre(index: map<string, Row>, r: Row, wiki: seq<string>, a: Id, b: Id)
    ensures (a, b) in LinksTo(index, r, wiki) <==>
      exists w :: w in wiki && Lower(w) in index && index[Lower(w)].id != r.id
        && ((a == r.id && b == index[Lower(w)].id) || (b == r.id && a == index[Lower(w)].id))
  {
    if wiki != [] {
      var before, last := wiki[..|wiki| - 1], wiki[|wiki| - 1];
      LinksToAre(index, r, before, a, b);
      assert wiki == before + [last];
    }
  }

  lemma LinksOfAre(x: Extractors, listing: seq<Row>, r: Row, a: Id, b: Id)
    ensures (a, b) in LinksOf(x, TitleIndex(x, listing), r) <==>
      (r.id == a && Wants(x, listing, r, b)) || (r.id == b && Wants(x, listing, r, a))
  {
    hide Means;
    var index := TitleIndex(x, listing);
    LinksToAre(index, r, x.wikiLinks(r.content), a, b);
    forall w, t: Row { IndexIsMeaning(x, listing, Lower(w), t); }
  }

  function Asked(x: Extractors, index: map<string, Row>, listing: seq<Row>): set<(Id, Id)> {
    set r, l | r in listing && l in LinksOf(x, index, r) :: l
  }

  lemma {:induction false} ResolvedFromAdds(x: Extractors, index: map<string, Row>, listing: seq<Row>,
                                            links: set<(Id, Id)>)
    ensures var after := ResolvedFrom(x, index, listing, links);
      && after.0 == links + Asked(x, index, listing)
      && (after.1 == 0 <==> Asked(x, index, listing) <= links)
  {
    hide LinksOf;
    if listing == [] {
      assert Asked(x, index, []) == {};
    } else {
      var before, last := listing[..|listing| - 1], listing[|listing| - 1];
      ResolvedFromAdds(x, index, before, links);
      AskedAppend(x, index, before, last);
      assert listing == before + [last];
      hide Asked;
    }
  }

  lemma AskedAppend(x: Extractors, index: map<string, Row>, listing: seq<Row>, r: Row)
    ensures Asked(x, index, listing + [r]) == Asked(x, index, listing) + LinksOf(x, index, r)
  {
    assert r in listing + [r];
  }

  /** ResolveBacklinks keeps every link and adds exactly the ones the texts ask for, both ways;
      it reports 0 exactly when there was nothing to add. */
  lemma ResolveAddsWanted(x: Extractors, db: Db, a: Id, b: Id)
    ensures var listing := Listing(db.rows);
      (a, b) in Resolved(x, db).0.links <==>
        (a, b) in db.links || WantsAny(x, listing, a, b) || WantsAny(x, listing, b, a)
    ensures Resolved(x, db).1 == 0 <==> Resolved(x, db).0.links == db.links
  {
    hide Wants, LinksOf;
    var listing := Listing(db.rows);
    var index := TitleIndex(x, listing);
    ResolvedFromAdds(x, index, listing, db.links);
    forall r { LinksOfAre(x, listing, r, a, b); }
  }

  /** A second ResolveBacklinks returns 0 and changes nothing. */
  lemma ResolveTwice(x: Extractors, db: Db)
    ensures Resolved(x, Resolved(x, db).0) == (Resolved(x, db).0, 0)
  {
    var listing := Listing(db.rows);
    var index := TitleIndex(x, listing);
    ResolvedFromAdds(x, index, listing, db.links);
    ResolvedFromAdds(x, index, listing, Resolved(x, db).0.links);
  }

  lemma ResolveSymmetric(x: Extractors, db: Db)
    requires Symmetric(db)
    ensures Symmetric(Resolved(x, db).0)
  {
    hide WantsAny;
    forall a: Id, b: Id | HasId(db.rows, a) && HasId(db.rows, b)
      ensures (a, b) in Resolved(x, db).0.links <==> (b, a) in Resolved(x, db).0.links
    {
      ResolveAddsWanted(x, db, a, b);
      ResolveAddsWanted(x, db, b, a);
    }
  }

  /** After RebuildIndexes the links are exactly those the rows' texts ask for, whatever was
      linked before, and doing it again changes no table and adds no tag. */
  lemma ReindexDependsOnRows(x: Extractors, db: Db, a: Id, b: Id)
    ensures var listing := Listing(db.rows);
      (a, b) in Reindexed(x, db).0.links <==> WantsAny(x, listing, a, b) || WantsAny(x, listing, b, a)
    ensures Reindexed(x, db).0.fts == FtsOf(db.rows) && Reindexed(x, db).0.rows == db.rows
    ensures var again := Reindexed(x, Reindexed(x, db).0);
      again.0 == Reindexed(x, db).0 && again.1 == Reindexed(x, db).1.(tagsAdded := 0)
  {
    hide WantsAny;
    ResolveAddsWanted(x, db.(fts := FtsOf(db.rows), links := {}), a, b);
    var once := Reindexed(x, db).0;
    var tags := KeywordTags(x, db.rows);
    assert db.tags + tags + tags == db.tags + tags;
  }

  // ---- whole runs ----

  lemma ReplaySymmetric(x: Extractors, db: Db, envs: seq<Env>)
    requires Consistent(db) && |db.events| == |envs| && db.events != []
    ensures Symmetric(Rebuilt(x, db, envs).value.0)
  {
    var replayed := Replayed(x, Wiped(db), db.events, envs).0;
    ReplayAddsNoLink(x, Wiped(db), db.events, envs);
    ResolveSymmetric(x, replayed);
  }

  lemma {:induction false} ReplayAddsNoLink(x: Extractors, db: Db, log: seq<Event>, envs: seq<Env>)
    requires |log| == |envs|
    ensures Replayed(x, db, log, envs).0.links == db.links
  {
    if log != [] {
      ReplayAddsNoLink(x, db, log[..|log| - 1], envs[..|log| - 1]);
    }
  }

  lemma RemoveSymmetric(db: Db, id: Id)
    requires Symmetric(db)
    ensures Symmetric(Removed(db, id))
  {
    forall other: string { HasIdFilter(db.rows, id, other); }
  }

  lemma StepSymmetric(x: Extractors, db: Db, c: Command)
    requires Consistent(db) && Symmetric(db) && FreshTarget(db, c)
    ensures Symmetric(Step(x, db, c))
  {
    hide Symmetric, Consistent, Resolved;
    match c
    case DoIngest(req, env) => IngestSymmetric(x, db, req, env);
    case DoDelete(id) =>
      if ResolveId(db.rows, id).Found? {
        RemoveSymmetric(db, ResolveId(db.rows, id).id);
      }
    case DoMark(id, consumer) => MarkSymmetric(db, id, consumer);
    case DoLink(a, b) => LinkSymmetric(db, a, b);
    case DoUnlink(a, b) => LinkSymmetric(db, a, b);
    case DoResolve => ResolveSymmetric(x, db);
    case DoReindex => ReindexSymmetric(x, db);
    case DoReplay(envs) =>
      if db.events != [] {
        ReplaySymmetric(x, db, Envs(envs, |db.events|));
      }
  }

  lemma LinkSymmetric(db: Db, a: string, b: string)
    requires Symmetric(db)
    ensures Symmetric(Linked(db, a, b)) && Symmetric(Unlinked(db, a, b))
  {
  }

  lemma MarkSymmetric(db: Db, id: string, consumer: Consumer)
    requires Consistent(db) && Symmetric(db)
    ensures Symmetric(db.(rows := MarkRows(db.rows, id, consumer)))
  {
    SameRowsKeep(db.events, db.rows, MarkRows(db.rows, id, consumer));
    SameIdsSymmetric(db, MarkRows(db.rows, id, consumer));
  }

  lemma ReindexSymmetric(x: Extractors, db: Db)
    ensures Symmetric(Reindexed(x, db).0)
  {
    ResolveSymmetric(x, db.(fts := FtsOf(db.rows), links := {}));
  }

  /** No write of the run reuses an id that something still links to. */
  ghost predicate FreshTargets(x: Extractors, cmds: seq<Command>)
  {
    cmds != [] ==>
      FreshTargets(x, cmds[..|cmds| - 1])
      && FreshTarget(Run(x, EMPTY_DB, cmds[..|cmds| - 1]), cmds[|cmds| - 1])
  }

  /** Over every run with fresh ids, links stay symmetric between live memories and every link
      has a live source. */
  lemma {:induction false} LinksStaySymmetric(x: Extractors, cmds: seq<Command>)
    requires FreshTargets(x, cmds)
    ensures Symmetric(Run(x, EMPTY_DB, cmds))
    ensures forall l :: l in Run(x, EMPTY_DB, cmds).links ==> HasId(Run(x, EMPTY_DB, cmds).rows, l.0)
  {
    hide Step, Symmetric, FreshTarget;
    ReachableKeeps(x, cmds);
    if cmds == [] {
      EmptySymmetric();
    } else {
      LinksStaySymmetric(x, cmds[..|cmds| - 1]);
      ReachableKeeps(x, cmds[..|cmds| - 1]);
      StepSymmetric(x, Run(x, EMPTY_DB, cmds[..|cmds| - 1]), cmds[|cmds| - 1]);
    }
  }

  lemma EmptySymmetric()
    ensures Symmetric(EMPTY_DB)
  {
  }
}
