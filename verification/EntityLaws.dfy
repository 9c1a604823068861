/** What merging entities means: everything that resolved to the source resolves to the target,
    everything else is left where it was, and no mention is lost, over whole runs. */
module EntityLaws {
  import opened Lists
  import opened Text
  import opened Tables
  import opened Entities

  /** The folded aliases of an entity. */
  function AliasKeys(e: Entity): set<string> { FoldAll(e.aliases) }

  function FoldAll(aliases: seq<string>): set<string> { set a | a in aliases :: Lower(a) }

  /** Every key that resolves to the entity. */
  function Keys(e: Entity): set<string> { {e.name} + AliasKeys(e) }

  /** No key belongs to two entities. */
  ghost predicate Disjoint(es: seq<Entity>) {
    forall i, j :: 0 <= i < j < |es| ==> Keys(es[i]) !! Keys(es[j])
  }

  ghost predicate Folded(es: seq<Entity>) {
    forall i :: 0 <= i < |es| ==> Normalise(es[i].name) == es[i].name
  }

  /** Every mention points to an entity that exists. */
  ghost predicate Anchored(g: Graph) {
    forall i :: 0 <= i < |g.mentions| ==> HasEntity(g.entities, g.mentions[i].entity)
  }

  ghost predicate WellFormed(g: Graph) {
    Distinct(g.entities) && Disjoint(g.entities) && Folded(g.entities) && Anchored(g)
  }

  // ---- normalisation ----

  lemma LowerKeepsSpace(c: char)
    ensures IsSpace(LowerChar(c)) == IsSpace(c)
  {
  }

  lemma NormaliseIdempotent(s: string)
    ensures Normalise(Normalise(s)) == Normalise(s)
  {
    hide IsSpace;
    var t := Trim(s);
    if t != [] {
      LowerKeepsSpace(t[0]);
      LowerKeepsSpace(t[|t| - 1]);
    }
    assert Trimmed(Lower(t));
    LowerIdempotent(t);
  }

  // ---- what resolves ----

  ghost predicate Owns(es: seq<Entity>, id: Id, key: string) {
    exists i :: 0 <= i < |es| && es[i].id == id && key in Keys(es[i])
  }

  lemma AliasIsKey(e: Entity, key: string)
    ensures HasAlias(e, key) <==> key in AliasKeys(e)
  {
  }

  lemma {:induction false} NameFound(es: seq<Entity>, name: string)
    ensures match FindByName(es, name)
      case None => forall i :: 0 <= i < |es| ==> es[i].name != Normalise(name)
      case Some(id) => exists i :: 0 <= i < |es| && es[i].id == id && es[i].name == Normalise(name)
  {
    if es != [] && es[0].name != Normalise(name) {
      NameFound(es[1..], name);
      if FindByName(es[1..], name).Some? {
        var i :| 0 <= i < |es[1..]| && es[1..][i].id == FindByName(es[1..], name).value
          && es[1..][i].name == Normalise(name);
        assert es[i + 1] == es[1..][i];
      }
    }
  }

  lemma {:induction false} AliasFound(es: seq<Entity>, alias: string)
    ensures match FindByAlias(es, alias)
      case None => forall i :: 0 <= i < |es| ==> Normalise(alias) !in AliasKeys(es[i])
      case Some(id) => exists i :: 0 <= i < |es| && es[i].id == id && Normalise(alias) in AliasKeys(es[i])
  {
    hide AliasKeys, HasAlias, Normalise;
    if es != [] {
      AliasIsKey(es[0], Normalise(alias));
      AliasFound(es[1..], alias);
      if !HasAlias(es[0], Normalise(alias)) && FindByAlias(es, alias).Some? {
        var i :| 0 <= i < |es[1..]| && es[1..][i].id == FindByAlias(es[1..], alias).value
          && Normalise(alias) in AliasKeys(es[1..][i]);
        assert es[i + 1] == es[1..][i];
      }
    }
  }

  /** While keys are disjoint, a mention resolves to the one entity that owns its key. */
  lemma ResolveIsOwner(es: seq<Entity>, mention: string, id: Id)
    requires Disjoint(es)
    ensures Resolve(es, mention) == Some(id) <==> Owns(es, id, Normalise(mention))
  {
    hide Normalise, AliasKeys;
    var key := Normalise(mention);
    NormaliseIdempotent(mention);
    NameFound(es, key);
    AliasFound(es, key);
  }

  lemma ResolveNone(es: seq<Entity>, mention: string)
    requires Disjoint(es)
    ensures Resolve(es, mention) == None <==> forall id :: !Owns(es, id, Normalise(mention))
  {
    hide Normalise, Disjoint, Resolve;
    forall id: Id { ResolveIsOwner(es, mention, id); }
    if Resolve(es, mention).Some? {
      assert Owns(es, Resolve(es, mention).value, Normalise(mention));
    }
  }

  // ---- merge ----

  function Redirection(r: Option<Id>, source: Id, target: Id): Option<Id> {
    if r == Some(source) then Some(target) else r
  }

  lemma FoldAppend(a: seq<string>, b: seq<string>)
    ensures FoldAll(a + b) == FoldAll(a) + FoldAll(b)
  {
    assert forall x :: x in a + b <==> x in a || x in b;
  }

  lemma FoldName(name: string)
    requires Normalise(name) == name
    ensures FoldAll([name]) == {name}
  {
    assert Lower(name) == name by { LowerIdempotent(Trim(name)); }
    assert name in [name];
  }

  lemma FoldUnique(ss: seq<string>)
    ensures FoldAll(Unique(ss)) == FoldAll(ss)
  {
  }

  /** The target's keys after the merge: both sets, and the source's name unless it is empty. */
  lemma MergedKeys(es: seq<Entity>, s: nat, t: nat)
    requires Distinct(es) && Folded(es) && s < |es| && t < |es| && s != t
    ensures var e := es[t].(aliases := MergedAliases(es, es[s].id, es[t].id));
      Keys(e) == Keys(es[t]) + AliasKeys(es[s]) + (if es[s].name == "" then {} else {es[s].name})
  {
    hide FoldAll, Unique, Normalise;
    GetFound(es, s);
    GetFound(es, t);
    var name := es[s].name;
    var own := if name == "" then [] else [name];
    FoldUnique(es[t].aliases + own + es[s].aliases);
    FoldAppend(es[t].aliases + own, es[s].aliases);
    FoldAppend(es[t].aliases, own);
    FoldName(name);
    FoldNothing();
  }

  lemma FoldNothing()
    ensures FoldAll([]) == {}
  {
  }

  /** The table after a merge of two different existing entities, row by row. */
  ghost predicate MergedTable(es: seq<Entity>, after: seq<Entity>, s: nat, t: nat, merged: Entity) {
    && s < |es| && t < |es| && merged.id == es[t].id && merged.name == es[t].name
    && (forall e :: e in after <==> e == merged || Other(es, s, t, e))
    && Distinct(after)
  }

  /** One of the rows the merge does not touch. */
  ghost predicate Other(es: seq<Entity>, s: nat, t: nat, e: Entity) {
    exists i :: 0 <= i < |es| && i != s && i != t && e == es[i]
  }

  lemma {:induction false} DistinctEntitiesFilter(es: seq<Entity>, p: Entity -> bool)
    requires Distinct(es)
    ensures Distinct(Filter(es, p))
  {
    if es != [] {
      var before, last := es[..|es| - 1], es[|es| - 1];
      DistinctEntitiesFilter(before, p);
      var kept := Filter(before, p);
      forall i | 0 <= i < |kept|
        ensures kept[i].id != last.id
      {
        assert kept[i] in kept;
        var j :| 0 <= j < |before| && before[j] == kept[i];
        assert es[j] == kept[i];
      }
    }
  }

  lemma MergeMembers(es: seq<Entity>, s: nat, t: nat, merged: Entity, e: Entity)
    requires Distinct(es) && s < |es| && t < |es| && s != t && merged.id == es[t].id
    ensures var after := Filter(SetEntity(es, es[t].id, merged), NotEntity(es[s].id));
      e in after <==> e == merged || Other(es, s, t, e)
  {
    var updated := SetEntity(es, es[t].id, merged);
    assert forall i :: 0 <= i < |es| && i != t ==> updated[i] == es[i];
    assert updated[t] == merged;
    if e in updated && e.id != es[s].id {
      var i :| 0 <= i < |updated| && updated[i] == e;
      assert i != s;
    }
    if Other(es, s, t, e) {
      var i :| 0 <= i < |es| && i != s && i != t && e == es[i];
      assert updated[i] == e;
    }
  }

  lemma SetDistinct(es: seq<Entity>, id: Id, e: Entity)
    requires Distinct(es) && e.id == id
    ensures Distinct(SetEntity(es, id, e))
  {
  }

  lemma MergeRows(g: Graph, s: nat, t: nat)
    requires Distinct(g.entities) && s < |g.entities| && t < |g.entities| && s != t
    ensures var es := g.entities;
      var source, target := es[s].id, es[t].id;
      var merged := es[t].(aliases := MergedAliases(es, source, target));
      && Merged(g, source, target).Some?
      && MergedTable(es, Merged(g, source, target).value.entities, s, t, merged)
      && Merged(g, source, target).value.mentions == Redirected(g.mentions, source, target)
  {
    hide MergedAliases, SetEntity, Other;
    var es := g.entities;
    var source, target := es[s].id, es[t].id;
    GetFound(es, t);
    var merged := es[t].(aliases := MergedAliases(es, source, target));
    SetDistinct(es, target, merged);
    DistinctEntitiesFilter(SetEntity(es, target, merged), NotEntity(source));
    forall e { MergeMembers(es, s, t, merged, e); }
    NoneLeft(g.mentions, source, target);
  }

  lemma {:induction false} SomeDropped(ms: seq<Mention>, id: Id)
    requires Mentioned(ms, id)
    ensures |Filter(ms, NotMentioning(id))| < |ms|
  {
    var i :| 0 <= i < |ms| && ms[i].entity == id;
    if i < |ms| - 1 {
      assert ms[..|ms| - 1][i] == ms[i];
      SomeDropped(ms[..|ms| - 1], id);
    }
  }

  /** A merge that commits keeps every mention exactly when it merges two different entities, or
      one without mentions into itself: merging an entity into itself deletes it and them. */
  lemma MergeKeepsMentionsIff(g: Graph, source: Id, target: Id)
    requires Merged(g, source, target).Some?
    ensures |Merged(g, source, target).value.mentions| == |g.mentions|
       <==> source != target || !Mentioned(g.mentions, source)
    ensures source == target ==> !HasEntity(Merged(g, source, target).value.entities, source)
  {
    if source != target {
      NoneLeft(g.mentions, source, target);
    } else {
      assert Redirected(g.mentions, source, target) == g.mentions;
      if Mentioned(g.mentions, source) {
        SomeDropped(g.mentions, source);
      } else {
        AllKept(g.mentions, source);
      }
      var after := Merged(g, source, target).value.entities;
      forall i | 0 <= i < |after|
        ensures after[i].id != source
      {
        assert after[i] in after;
      }
    }
  }

  /** Who owns a key after a merge. */
  lemma OwnersMerged(es: seq<Entity>, after: seq<Entity>, s: nat, t: nat, merged: Entity, id: Id, key: string)
    requires Distinct(es) && s != t && MergedTable(es, after, s, t, merged)
    ensures Owns(after, id, key) <==>
      (id == es[t].id && key in Keys(merged)) || (id != es[s].id && id != es[t].id && Owns(es, id, key))
  {
    hide Keys;
    if Owns(after, id, key) {
      var j :| 0 <= j < |after| && after[j].id == id && key in Keys(after[j]);
      assert after[j] in after;
    }
    if id == es[t].id && key in Keys(merged) {
      assert merged in after;
      var j :| 0 <= j < |after| && after[j] == merged;
    }
    if id != es[s].id && id != es[t].id && Owns(es, id, key) {
      var i :| 0 <= i < |es| && es[i].id == id && key in Keys(es[i]);
      assert es[i] in after;
      var j :| 0 <= j < |after| && after[j] == es[i];
    }
  }

  lemma MergedDisjoint(es: seq<Entity>, after: seq<Entity>, s: nat, t: nat, merged: Entity)
    requires Distinct(es) && Disjoint(es) && s != t && MergedTable(es, after, s, t, merged)
    requires Keys(merged) <= Keys(es[t]) + Keys(es[s])
    ensures Disjoint(after)
  {
    hide Keys;
    forall i, j | 0 <= i < j < |after|
      ensures Keys(after[i]) !! Keys(after[j])
    {
      assert after[i] in after && after[j] in after;
    }
  }

  lemma MergedAnchored(g: Graph, after: Graph, s: nat, t: nat, merged: Entity)
    requires Distinct(g.entities) && Anchored(g) && s != t && MergedTable(g.entities, after.entities, s, t, merged)
    requires after.mentions == Redirected(g.mentions, g.entities[s].id, g.entities[t].id)
    ensures Anchored(after)
  {
    var es := g.entities;
    assert merged in after.entities;
    var k :| 0 <= k < |after.entities| && after.entities[k] == merged;
    forall i | 0 <= i < |after.mentions|
      ensures HasEntity(after.entities, after.mentions[i].entity)
    {
      var was := g.mentions[i].entity;
      if was != es[s].id && was != es[t].id {
        var e :| 0 <= e < |es| && es[e].id == was;
        assert es[e] in after.entities;
        var j :| 0 <= j < |after.entities| && after.entities[j] == es[e];
      }
    }
  }

  /** Merging keeps the graph well formed, and loses and re-points no mention but the source's. */
  lemma MergeKeeps(g: Graph, s: nat, t: nat)
    requires WellFormed(g) && s < |g.entities| && t < |g.entities| && s != t
    ensures var source, target := g.entities[s].id, g.entities[t].id;
      && Merged(g, source, target).Some?
      && WellFormed(Merged(g, source, target).value)
      && Merged(g, source, target).value.mentions == Redirected(g.mentions, source, target)
  {
    hide Merged, MergedAliases, Keys, Redirected;
    var es := g.entities;
    var source, target := es[s].id, es[t].id;
    var merged := es[t].(aliases := MergedAliases(es, source, target));
    MergeRows(g, s, t);
    var after := Merged(g, source, target).value;
    MergedKeysBound(es, s, t);
    MergedDisjoint(es, after.entities, s, t, merged);
    MergedAnchored(g, after, s, t, merged);
    forall i | 0 <= i < |after.entities|
      ensures Normalise(after.entities[i].name) == after.entities[i].name
    {
      assert after.entities[i] in after.entities;
    }
  }

  lemma MergedKeysBound(es: seq<Entity>, s: nat, t: nat)
    requires Distinct(es) && Folded(es) && s < |es| && t < |es| && s != t
    ensures Keys(es[t].(aliases := MergedAliases(es, es[s].id, es[t].id))) <= Keys(es[t]) + Keys(es[s])
  {
    MergedKeys(es, s, t);
  }

  /** Every mention of the source goes to the target and every other mention stays. */
  ghost predicate Quotient(before: seq<Entity>, after: seq<Entity>, source: Id, target: Id) {
    forall m :: Resolve(after, m) == Redirection(Resolve(before, m), source, target)
  }

  lemma MergeResolves(g: Graph, s: nat, t: nat, m: string)
    requires WellFormed(g) && s < |g.entities| && t < |g.entities| && s != t
    ensures var es := g.entities;
      var source, target := es[s].id, es[t].id;
      var after := Merged(g, source, target).value.entities;
      Resolve(after, m)
      == if Normalise(m) == "" && es[s].name == "" && "" !in AliasKeys(es[s]) then None
         else Redirection(Resolve(es, m), source, target)
  {
    hide Merged, MergedAliases, Resolve, Normalise, AliasKeys, Redirected;
    var es, key := g.entities, Normalise(m);
    var source, target := es[s].id, es[t].id;
    var merged := es[t].(aliases := MergedAliases(es, source, target));
    MergeRows(g, s, t);
    MergeKeeps(g, s, t);
    MergedKeys(es, s, t);
    var after := Merged(g, source, target).value.entities;
    forall id: Id
      ensures Resolve(es, m) == Some(id) <==> Owns(es, id, key)
      ensures Resolve(after, m) == Some(id) <==> Owns(after, id, key)
      ensures Owns(after, id, key) <==>
        (id == target && key in Keys(merged)) || (id != source && id != target && Owns(es, id, key))
    {
      ResolveIsOwner(es, m, id);
      ResolveIsOwner(after, m, id);
      OwnersMerged(es, after, s, t, merged, id, key);
    }
    ResolveNone(es, m);
    ResolveNone(after, m);
    SoleOwner(es, s, key);
    SoleOwner(es, t, key);
    if Resolve(after, m).Some? {
      assert Owns(after, Resolve(after, m).value, key);
    }
    if Resolve(es, m).Some? {
      assert Owns(es, Resolve(es, m).value, key);
    }
  }

  lemma SoleOwner(es: seq<Entity>, i: nat, key: string)
    requires Distinct(es) && Disjoint(es) && i < |es|
    ensures Owns(es, es[i].id, key) <==> key in Keys(es[i])
    ensures key in Keys(es[i]) ==> forall id :: Owns(es, id, key) ==> id == es[i].id
  {
  }

  /** Of two different existing entities, a merge is a quotient exactly when the source's name is not
      empty, or is also one of its aliases: an empty name is not carried over as an alias. */
  lemma LiveMergeIff(g: Graph, s: nat, t: nat)
    requires WellFormed(g) && s < |g.entities| && t < |g.entities| && s != t
    ensures var source, target := g.entities[s].id, g.entities[t].id;
      Quotient(g.entities, Merged(g, source, target).value.entities, source, target)
      <==> g.entities[s].name != "" || "" in AliasKeys(g.entities[s])
  {
    hide Merged, Resolve;
    var es := g.entities;
    MergeKeeps(g, s, t);
    forall m: string { MergeResolves(g, s, t, m); }
    if es[s].name == "" && "" !in AliasKeys(es[s]) {
      assert Normalise("") == "";
      ResolveIsOwner(es, "", es[s].id);
      assert Owns(es, es[s].id, "");
      assert Resolve(es, "") == Some(es[s].id);
      assert Resolve(Merged(g, es[s].id, es[t].id).value.entities, "") == None;
    }
  }

  ghost predicate NameCarried(es: seq<Entity>, source: Id) {
    forall i :: 0 <= i < |es| && es[i].id == source ==> es[i].name != "" || "" in AliasKeys(es[i])
  }

  lemma SameKeysResolve(es: seq<Entity>, after: seq<Entity>, m: string)
    requires Disjoint(es) && |after| == |es|
    requires forall i :: 0 <= i < |es| ==> after[i].id == es[i].id && Keys(after[i]) == Keys(es[i])
    ensures Resolve(after, m) == Resolve(es, m)
  {
    hide Resolve, Keys, Normalise;
    forall id: Id
      ensures Resolve(after, m) == Some(id) <==> Resolve(es, m) == Some(id)
    {
      ResolveIsOwner(es, m, id);
      ResolveIsOwner(after, m, id);
      if Owns(es, id, Normalise(m)) {
        var i :| 0 <= i < |es| && es[i].id == id && Normalise(m) in Keys(es[i]);
        assert after[i].id == id;
      }
    }
    if Resolve(after, m).Some? {
      assert Resolve(es, m) == Some(Resolve(after, m).value);
    } else if Resolve(es, m).Some? {
      assert Resolve(after, m) == Some(Resolve(es, m).value);
    }
  }

  /** Merging an id that is no entity changes nothing that resolves. */
  lemma MissingSource(g: Graph, source: Id, target: Id, m: string)
    requires WellFormed(g) && Merged(g, source, target).Some? && !HasEntity(g.entities, source)
    ensures Resolve(Merged(g, source, target).value.entities, m) == Resolve(g.entities, m)
  {
    hide Resolve;
    var es, row := g.entities, GetEntity(g.entities, target);
    NoEntity(es, source);
    var updated := if row.None? then es
      else SetEntity(es, target, row.value.(aliases := MergedAliases(es, source, target)));
    forall i | 0 <= i < |es|
      ensures updated[i].id == es[i].id && Keys(updated[i]) == Keys(es[i])
      ensures NotEntity(source)(updated[i])
    {
      if row.Some? && es[i].id == target {
        GetFound(es, i);
        assert AliasesOf(es, target) + [] + [] == es[i].aliases;
        FoldUnique(es[i].aliases);
      }
    }
    FilterAll(updated, NotEntity(source));
    SameKeysResolve(es, updated, m);
  }

  /** A merge leaves no entity that was not there, and never the source. */
  lemma MergeLeaves(g: Graph, source: Id, target: Id, id: Id)
    requires Merged(g, source, target).Some? && HasEntity(Merged(g, source, target).value.entities, id)
    ensures id != source && HasEntity(g.entities, id)
  {
    var es, row, after := g.entities, GetEntity(g.entities, target), Merged(g, source, target).value.entities;
    var updated := if row.None? then es
      else SetEntity(es, target, row.value.(aliases := MergedAliases(es, source, target)));
    var i :| 0 <= i < |after| && after[i].id == id;
    assert after[i] in after && after[i] in updated;
    var j :| 0 <= j < |updated| && updated[j] == after[i];
    NoEntity(es, target);
    if row.Some? && es[j].id == target {
      GotEntity(es, target);
    }
    assert es[j].id == id;
  }

  /** Merging into the entity itself, or into an id that is no entity, loses the source's names. */
  lemma NamesLost(g: Graph, source: Id, target: Id)
    requires WellFormed(g) && Merged(g, source, target).Some? && HasEntity(g.entities, source)
    requires source == target || !HasEntity(g.entities, target)
    ensures !Quotient(g.entities, Merged(g, source, target).value.entities, source, target)
  {
    hide Resolve, Merged, Normalise, Keys;
    var es, after := g.entities, Merged(g, source, target).value.entities;
    var s :| 0 <= s < |es| && es[s].id == source;
    assert Normalise(es[s].name) == es[s].name && es[s].name in Keys(es[s]) by { OwnName(es, s); }
    assert Owns(es, source, es[s].name);
    ResolveIsOwner(es, es[s].name, source);
    if Resolve(after, es[s].name) == Some(target) {
      ResolvedExists(after, es[s].name);
      MergeLeaves(g, source, target, target);
    }
  }

  lemma OwnName(es: seq<Entity>, s: nat)
    requires Folded(es) && s < |es|
    ensures Normalise(es[s].name) == es[s].name && es[s].name in Keys(es[s])
  {
  }

  /** Every merge that commits is a quotient on what resolves exactly when its source is no entity,
      or source and target are two entities and the source's name is carried over. */
  lemma MergeIsQuotientIff(g: Graph, source: Id, target: Id)
    requires WellFormed(g) && Merged(g, source, target).Some?
    ensures Quotient(g.entities, Merged(g, source, target).value.entities, source, target)
       <==> !HasEntity(g.entities, source)
            || (source != target && HasEntity(g.entities, target) && NameCarried(g.entities, source))
  {
    hide Resolve, Merged, AliasKeys, WellFormed;
    var es := g.entities;
    if !HasEntity(es, source) {
      forall m
        ensures Resolve(Merged(g, source, target).value.entities, m) == Redirection(Resolve(es, m), source, target)
      {
        MissingSource(g, source, target, m);
        if Resolve(es, m).Some? {
          ResolvedExists(es, m);
        }
      }
    } else if source == target || !HasEntity(es, target) {
      NamesLost(g, source, target);
    } else {
      var s :| 0 <= s < |es| && es[s].id == source;
      var t :| 0 <= t < |es| && es[t].id == target;
      LiveMergeIff(g, s, t);
      DistinctOf(g);
    }
  }

  lemma DistinctOf(g: Graph)
    requires WellFormed(g)
    ensures Distinct(g.entities)
  {
  }

  // ---- runs ----

  datatype Action =
    | DoMention(text: string, memory: string, kind: string, uuid: Id)   // resolve, or create, then record
    | DoMerge(source: Id, target: Id)
    | DoAlias(id: Id, alias: string)

  /** The body of the extraction loop: resolve the name, create it if that fails, record it. */
  function MentionStep(g: Graph, text: string, memory: string, kind: string, uuid: Id): (Graph, bool) {
    var found := Resolve(g.entities, text);
    if found.Some? then
      (var r := Recorded(g, found.value, memory, text); if r.Some? then r.value else g, true)
    else
      var created := Created(g, text, kind, uuid);
      if created.None? then (g, false)
      else (var r := Recorded(created.value, uuid, memory, text); if r.Some? then r.value else created.value, true)
  }

  function Act(g: Graph, a: Action): Graph {
    match a
    case DoMention(text, memory, kind, uuid) => MentionStep(g, text, memory, kind, uuid).0
    case DoMerge(source, target) =>
      var r := Merged(g, source, target);
      if r.None? then g else r.value
    case DoAlias(id, alias) =>
      var r := AliasAdded(g, id, alias);
      if r.None? then g else r.value
  }

  function Acts(g: Graph, actions: seq<Action>): Graph {
    if actions == [] then g else Act(Acts(g, actions[..|actions| - 1]), actions[|actions| - 1])
  }

  ghost predicate Named(es: seq<Entity>) {
    forall i :: 0 <= i < |es| ==> es[i].name != ""
  }

  /** The alias is nobody else's key. */
  ghost predicate Unclaimed(es: seq<Entity>, id: Id, alias: string) {
    forall i :: 0 <= i < |es| && es[i].id != id ==> Lower(alias) !in Keys(es[i])
  }

  /** What the callers keep to: no empty name, two different existing entities, a free alias. */
  ghost predicate Allowed(g: Graph, a: Action) {
    match a
    case DoMention(text, _, _, _) => Trim(text) != ""
    case DoMerge(source, target) =>
      source != target && HasEntity(g.entities, source) && HasEntity(g.entities, target)
    case DoAlias(id, alias) => Unclaimed(g.entities, id, alias)
  }

  ghost predicate AllAllowed(g: Graph, actions: seq<Action>) {
    actions != [] ==>
      AllAllowed(g, actions[..|actions| - 1])
      && Allowed(Acts(g, actions[..|actions| - 1]), actions[|actions| - 1])
  }

  /** Where an entity ends up after the merges of a run. */
  function Redirects(actions: seq<Action>, id: Id): Id {
    if actions == [] then id
    else
      var before, last := Redirects(actions[..|actions| - 1], id), actions[|actions| - 1];
      if last.DoMerge? && before == last.source then last.target else before
  }

  lemma CreateKeeps(g: Graph, name: string, kind: string, uuid: Id)
    requires WellFormed(g) && Named(g.entities) && Trim(name) != "" && Resolve(g.entities, name).None?
    requires Created(g, name, kind, uuid).Some?
    ensures var after := Created(g, name, kind, uuid).value;
      && WellFormed(after) && Named(after.entities) && HasEntity(after.entities, uuid)
      && forall m, id :: Resolve(g.entities, m) == Some(id) ==> Resolve(after.entities, m) == Some(id)
  {
    hide Resolve, Normalise;
    var es, e := g.entities, Entity(uuid, Normalise(name), kind, []);
    var after := es + [e];
    NewName(name);
    ResolveNone(es, name);
    forall i | 0 <= i < |es|
      ensures Keys(es[i]) !! Keys(e)
    {
      assert Keys(e) == {e.name};
      assert !Owns(es, es[i].id, e.name);
    }
    assert after[|es|].id == uuid;
    forall i | 0 <= i < |g.mentions|
      ensures HasEntity(after, g.mentions[i].entity)
    {
      var j :| 0 <= j < |es| && es[j].id == g.mentions[i].entity;
      assert after[j].id == es[j].id;
    }
    forall m, id: Id | Resolve(es, m) == Some(id)
      ensures Resolve(after, m) == Some(id)
    {
      ResolveIsOwner(es, m, id);
      ResolveIsOwner(after, m, id);
      var i :| 0 <= i < |es| && es[i].id == id && Normalise(m) in Keys(es[i]);
      assert after[i] == es[i];
    }
  }

  lemma NewName(name: string)
    requires Trim(name) != ""
    ensures Normalise(name) != "" && Normalise(Normalise(name)) == Normalise(name)
  {
    NormaliseIdempotent(name);
  }

  lemma RecordKeeps(g: Graph, id: Id, memory: string, text: string)
    requires WellFormed(g) && HasEntity(g.entities, id)
    ensures WellFormed(Recorded(g, id, memory, text).value)
  {
  }

  /** Whatever resolves is an entity, on any table. */
  lemma ResolvedExists(es: seq<Entity>, m: string)
    requires Resolve(es, m).Some?
    ensures HasEntity(es, Resolve(es, m).value)
  {
    hide Normalise;
    NameFound(es, Normalise(m));
    AliasFound(es, Normalise(m));
  }

  lemma AliasKeeps(g: Graph, id: Id, alias: string)
    requires WellFormed(g) && Named(g.entities) && Unclaimed(g.entities, id, alias)
    requires AliasAdded(g, id, alias).Some?
    ensures var after := AliasAdded(g, id, alias).value;
      && WellFormed(after) && Named(after.entities) && after.mentions == g.mentions
      && forall m, e :: Resolve(g.entities, m) == Some(e) ==> Resolve(after.entities, m) == Some(e)
  {
    hide Resolve, Normalise;
    var es, after := g.entities, AliasAdded(g, id, alias).value.entities;
    if after != es {
      AliasTable(g, id, alias);
      forall i | 0 <= i < |g.mentions|
        ensures HasEntity(after, g.mentions[i].entity)
      {
        var j :| 0 <= j < |es| && es[j].id == g.mentions[i].entity;
        assert after[j].id == es[j].id;
      }
      forall m, e: Id | Resolve(es, m) == Some(e)
        ensures Resolve(after, m) == Some(e)
      {
        ResolveIsOwner(es, m, e);
        ResolveIsOwner(after, m, e);
        var i :| 0 <= i < |es| && es[i].id == e && Normalise(m) in Keys(es[i]);
        assert after[i].id == e && Keys(es[i]) <= Keys(after[i]);
      }
    }
  }

  lemma AliasTable(g: Graph, id: Id, alias: string)
    requires WellFormed(g) && Unclaimed(g.entities, id, alias) && AliasAdded(g, id, alias).Some?
    ensures var es, after := g.entities, AliasAdded(g, id, alias).value.entities;
      && |after| == |es| && Disjoint(after)
      && forall i :: 0 <= i < |es| ==>
          after[i].id == es[i].id && after[i].name == es[i].name && Keys(es[i]) <= Keys(after[i])
  {
    hide Normalise;
    var es, after := g.entities, AliasAdded(g, id, alias).value.entities;
    forall i | 0 <= i < |es|
      ensures after[i].id == es[i].id && after[i].name == es[i].name
      ensures Keys(es[i]) <= Keys(after[i])
      ensures Keys(after[i]) <= Keys(es[i]) + (if es[i].id == id then {Lower(alias)} else {})
    {
      GetFound(es, i);
      if es[i].id == id {
        assert forall a :: a in es[i].aliases + [alias] <==> a in es[i].aliases || a == alias;
      }
    }
    forall i, j | 0 <= i < j < |after|
      ensures Keys(after[i]) !! Keys(after[j])
    {
      assert Keys(es[i]) !! Keys(es[j]);
    }
  }

  /** The mentions of before, each redirected, are the first mentions of after. */
  ghost predicate MentionsKept(before: seq<Mention>, after: seq<Mention>, moved: map<Id, Id>) {
    |before| <= |after| && forall i :: 0 <= i < |before| ==>
      after[i].memory == before[i].memory && after[i].text == before[i].text
      && after[i].entity == if before[i].entity in moved then moved[before[i].entity] else before[i].entity
  }

  function Move(a: Action): map<Id, Id> { if a.DoMerge? then map[a.source := a.target] else map[] }

  lemma ActKeeps(g: Graph, a: Action)
    requires WellFormed(g) && Named(g.entities) && Allowed(g, a)
    ensures WellFormed(Act(g, a)) && Named(Act(g, a).entities)
    ensures MentionsKept(g.mentions, Act(g, a).mentions, Move(a))
    ensures forall m, id :: Resolve(g.entities, m) == Some(id) ==>
      Resolve(Act(g, a).entities, m) == Some(if a.DoMerge? && id == a.source then a.target else id)
  {
    hide Resolve, WellFormed, Normalise, Merged, AliasAdded, Unclaimed;
    match a
    case DoMention(text, memory, kind, uuid) => MentionKeeps(g, text, memory, kind, uuid);
    case DoMerge(source, target) =>
      var s :| 0 <= s < |g.entities| && g.entities[s].id == source;
      var t :| 0 <= t < |g.entities| && g.entities[t].id == target;
      MergeKeeps(g, s, t);
      MergeNamed(g, s, t);
      forall m: string { MergeResolves(g, s, t, m); }
    case DoAlias(id, alias) =>
      if AliasAdded(g, id, alias).Some? {
        AliasKeeps(g, id, alias);
      }
  }

  lemma MergeNamed(g: Graph, s: nat, t: nat)
    requires WellFormed(g) && Named(g.entities) && s < |g.entities| && t < |g.entities| && s != t
    ensures Merged(g, g.entities[s].id, g.entities[t].id).Some?
    ensures Named(Merged(g, g.entities[s].id, g.entities[t].id).value.entities)
  {
    hide Merged;
    MergeRows(g, s, t);
    var after := Merged(g, g.entities[s].id, g.entities[t].id).value.entities;
    forall i | 0 <= i < |after|
      ensures after[i].name != ""
    {
      assert after[i] in after;
    }
  }

  lemma MentionKeeps(g: Graph, text: string, memory: string, kind: string, uuid: Id)
    requires WellFormed(g) && Named(g.entities) && Trim(text) != ""
    ensures var after := MentionStep(g, text, memory, kind, uuid).0;
      && WellFormed(after) && Named(after.entities) && MentionsKept(g.mentions, after.mentions, map[])
      && forall m, id :: Resolve(g.entities, m) == Some(id) ==> Resolve(after.entities, m) == Some(id)
  {
    hide Resolve, WellFormed, Created;
    var found := Resolve(g.entities, text);
    if found.Some? {
      ResolvedExists(g.entities, text);
      RecordKeeps(g, found.value, memory, text);
    } else if Created(g, text, kind, uuid).Some? {
      CreateKeeps(g, text, kind, uuid);
      CreatedMentions(g, text, kind, uuid);
      RecordKeeps(Created(g, text, kind, uuid).value, uuid, memory, text);
    }
  }

  lemma CreatedMentions(g: Graph, text: string, kind: string, uuid: Id)
    requires Created(g, text, kind, uuid).Some?
    ensures Created(g, text, kind, uuid).value.mentions == g.mentions
  {
  }

  lemma DisjointOf(g: Graph)
    requires WellFormed(g)
    ensures Disjoint(g.entities)
  {
  }

  /** Over any run of mentions, merges and free aliases: keys stay disjoint, no mention is lost
      or left pointing at a missing entity, every earlier mention follows the merges, and
      whatever resolved to an entity resolves to where the merges took it. */
  lemma {:induction false} RunIsQuotient(g: Graph, actions: seq<Action>)
    requires WellFormed(g) && Named(g.entities) && AllAllowed(g, actions)
    ensures WellFormed(Acts(g, actions)) && Named(Acts(g, actions).entities)
    ensures forall m, id :: Resolve(g.entities, m) == Some(id) ==>
      Resolve(Acts(g, actions).entities, m) == Some(Redirects(actions, id))
    ensures |g.mentions| <= |Acts(g, actions).mentions|
    ensures forall i :: 0 <= i < |g.mentions| ==>
      var before, after := g.mentions[i], Acts(g, actions).mentions[i];
      after == before.(entity := Redirects(actions, before.entity))
  {
    hide Resolve, WellFormed, Act, Allowed;
    if actions != [] {
      var before, last := actions[..|actions| - 1], actions[|actions| - 1];
      RunIsQuotient(g, before);
      ActKeeps(Acts(g, before), last);
    }
  }

  // ---- what a caller gets back ----

  /** After a mention is recorded, its text resolves to the entity the mention points at. */
  lemma MentionResolves(g: Graph, text: string, memory: string, kind: string, uuid: Id)
    requires WellFormed(g) && Named(g.entities) && Trim(text) != "" && MentionStep(g, text, memory, kind, uuid).1
    ensures var after := MentionStep(g, text, memory, kind, uuid).0;
      exists e :: Resolve(after.entities, text) == Some(e) && after.mentions == g.mentions + [Mention(e, memory, text)]
  {
    hide Resolve, WellFormed, Normalise;
    DisjointOf(g);
    var found := Resolve(g.entities, text);
    if found.Some? {
      ResolvedExists(g.entities, text);
    } else {
      var created := Created(g, text, kind, uuid).value;
      CreateKeeps(g, text, kind, uuid);
      DisjointOf(created);
      var es := created.entities;
      assert es[|g.entities|] == Entity(uuid, Normalise(text), kind, []);
      assert Owns(es, uuid, Normalise(text));
      ResolveIsOwner(es, text, uuid);
    }
  }

  lemma KeysAfterAlias(g: Graph, i: nat, alias: string)
    requires WellFormed(g) && i < |g.entities|
    ensures var es, id := g.entities, g.entities[i].id;
      && AliasAdded(g, id, alias).Some?
      && var after := AliasAdded(g, id, alias).value.entities;
         && |after| == |es| && after[i].id == id && Keys(after[i]) == Keys(es[i]) + {Lower(alias)}
         && forall j :: 0 <= j < |es| && j != i ==> after[j] == es[j]
  {
    hide Normalise;
    var es, e := g.entities, g.entities[i];
    GetFound(es, i);
    AliasIsKey(e, Lower(alias));
    FoldAppend(e.aliases, [alias]);
    assert FoldAll([alias]) == {Lower(alias)};
    assert forall j :: 0 <= j < |es| && j != i ==> es[j].id != e.id;
  }

  /** A new alias resolves to its entity exactly when it has no space at its edges, or its trimmed
      form did already: lookups trim the mention, and adding does not trim the alias. */
  lemma AliasResolvesIff(g: Graph, i: nat, alias: string)
    requires WellFormed(g) && i < |g.entities| && Unclaimed(g.entities, g.entities[i].id, alias)
    ensures var id := g.entities[i].id;
      && AliasAdded(g, id, alias).Some?
      && (Resolve(AliasAdded(g, id, alias).value.entities, alias) == Some(id)
          <==> Trimmed(alias) || Resolve(g.entities, alias) == Some(id))
  {
    hide Resolve, Keys, AliasAdded, Unclaimed;
    var es, id, key := g.entities, g.entities[i].id, Normalise(alias);
    KeysAfterAlias(g, i, alias);
    AliasTable(g, id, alias);
    var after := AliasAdded(g, id, alias).value.entities;
    ResolveIsOwner(after, alias, id);
    ResolveIsOwner(es, alias, id);
    assert Owns(after, id, key) <==> key in Keys(after[i]) by { OwnsAt(after, i, key); }
    assert Owns(es, id, key) <==> key in Keys(es[i]) by { OwnsAt(es, i, key); }
    TrimmedIff(alias);
  }

  lemma OwnsAt(es: seq<Entity>, i: nat, key: string)
    requires i < |es| && forall j :: 0 <= j < |es| && j != i ==> es[j].id != es[i].id
    ensures Owns(es, es[i].id, key) <==> key in Keys(es[i])
  {
  }

  lemma TrimmedIff(s: string)
    ensures Lower(Trim(s)) == Lower(s) <==> Trimmed(s)
  {
    if !Trimmed(s) {
      TrimShortens(s);
      assert |Lower(Trim(s))| < |Lower(s)|;
    }
  }

  lemma {:induction false} LeftShortens(s: string)
    ensures |TrimLeft(s)| <= |s| && (s != "" && IsSpace(s[0]) ==> |TrimLeft(s)| < |s|)
    ensures s == "" || IsSpace(s[0]) || TrimLeft(s) == s
  {
    hide IsSpace;
    if s != "" && IsSpace(s[0]) {
      LeftShortens(s[1..]);
    }
  }

  lemma TrimShortens(s: string)
    requires !Trimmed(s)
    ensures |Trim(s)| < |s|
  {
    hide IsSpace;
    LeftShortens(s);
  }

  // ---- what is looked up and recorded ----

  lemma {:induction false} FirstNamed(es: seq<Entity>, name: string, i: nat)
    requires i < |es| && es[i].name == Normalise(name) && forall j :: 0 <= j < i ==> es[j].name != Normalise(name)
    ensures FindByName(es, name) == Some(es[i].id)
  {
    if i > 0 {
      assert es[0].name != Normalise(name);
      FirstNamed(es[1..], name, i - 1);
    }
  }

  lemma {:induction false} FirstAliased(es: seq<Entity>, alias: string, i: nat)
    requires i < |es| && HasAlias(es[i], Normalise(alias))
    requires forall j :: 0 <= j < i ==> !HasAlias(es[j], Normalise(alias))
    ensures FindByAlias(es, alias) == Some(es[i].id)
  {
    hide HasAlias;
    if i > 0 {
      assert !HasAlias(es[0], Normalise(alias));
      assert forall j :: 0 <= j < i - 1 ==> es[1..][j] == es[j + 1];
      FirstAliased(es[1..], alias, i - 1);
    }
  }

  ghost predicate Carries(e: Entity, key: string) { exists a :: a in e.aliases && Lower(a) == key }

  ghost predicate Nameless(es: seq<Entity>, key: string) { forall j :: 0 <= j < |es| ==> es[j].name != key }

  /** On any table a mention means the first entity with its folded name; if there is none, the first
      with an alias that is its folded form; and if there is none either, nothing. */
  lemma ResolvesFirst(es: seq<Entity>, m: string, i: nat)
    requires i < |es|
    ensures var key := Lower(Trim(m));
      es[i].name == key && (forall j :: 0 <= j < i ==> es[j].name != key) ==> Resolve(es, m) == Some(es[i].id)
    ensures var key := Lower(Trim(m));
      Nameless(es, key) && Carries(es[i], key) && (forall j :: 0 <= j < i ==> !Carries(es[j], key)) ==>
        Resolve(es, m) == Some(es[i].id)
    ensures var key := Lower(Trim(m));
      Nameless(es, key) && (forall j :: 0 <= j < |es| ==> !Carries(es[j], key)) ==> Resolve(es, m) == None
  {
    hide FindByName, FindByAlias, Trim, Lower, Normalise;
    var key := Normalise(m);
    KeyIs(m);
    NormaliseIdempotent(m);
    forall e { CarriesIs(e, key); }
    hide HasAlias, Carries;
    if es[i].name == key && forall j :: 0 <= j < i ==> es[j].name != key {
      FirstNamed(es, key, i);
    }
    if Nameless(es, key) {
      NameTaken(es, key);
      if Carries(es[i], key) && forall j :: 0 <= j < i ==> !Carries(es[j], key) {
        FirstAliased(es, key, i);
      }
      if forall j :: 0 <= j < |es| ==> !Carries(es[j], key) {
        NeverAliased(es, key);
      }
    }
  }

  lemma KeyIs(m: string)
    ensures Normalise(m) == Lower(Trim(m))
  {
  }

  lemma CarriesIs(e: Entity, key: string)
    ensures Carries(e, key) <==> HasAlias(e, key)
  {
  }

  lemma {:induction false} NeverAliased(es: seq<Entity>, alias: string)
    requires forall j :: 0 <= j < |es| ==> !HasAlias(es[j], Normalise(alias))
    ensures FindByAlias(es, alias) == None
  {
    hide HasAlias;
    if es != [] {
      assert forall j :: 0 <= j < |es| - 1 ==> es[1..][j] == es[j + 1];
      NeverAliased(es[1..], alias);
    }
  }

  /** What one name of a reply does to any table: it is recorded under the entity it resolves to, or
      under a new one with the folded name and the given kind; if neither, nothing changes. */
  lemma MentionDoes(g: Graph, text: string, memory: string, kind: string, uuid: Id)
    ensures var (after, ok) := MentionStep(g, text, memory, kind, uuid);
      var found := Resolve(g.entities, text);
      if found.Some? then
        ok && after == g.(mentions := g.mentions + [Mention(found.value, memory, text)])
      else if forall e :: e in g.entities ==> e.name != Lower(Trim(text)) && e.id != uuid then
        ok && after == Graph(g.entities + [Entity(uuid, Lower(Trim(text)), kind, [])],
                             g.mentions + [Mention(uuid, memory, text)])
      else !ok && after == g
  {
    hide Resolve, Trim, Lower, HasEntity, FindByName;
    if Resolve(g.entities, text).Some? {
      ResolvedExists(g.entities, text);
    } else {
      CreateKeepsPromise(g, text, kind, uuid);
      if Created(g, text, kind, uuid).Some? {
        EntityThere(Created(g, text, kind, uuid).value.entities, uuid);
        var es := Created(g, text, kind, uuid).value.entities;
        assert es[|g.entities|] in es;
      }
    }
  }
}
