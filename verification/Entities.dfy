/** The entity graph: names, aliases and mentions, and merging as a quotient on what resolves. */
module Entities {
  import opened Lists
  import opened Text
  import opened Tables

  datatype Entity = Entity(id: Id, name: string, kind: string, aliases: seq<string>)

  datatype Mention = Mention(entity: Id, memory: string, text: string)

  /** entities and entity_mentions, in row order. */
  datatype Graph = Graph(entities: seq<Entity>, mentions: seq<Mention>)

  const EMPTY_GRAPH := Graph([], [])

  function Normalise(s: string): string { Lower(Trim(s)) }

  predicate HasEntity(es: seq<Entity>, id: Id) {
    exists i :: 0 <= i < |es| && es[i].id == id
  }

  // ---- lookups ----

  /** SELECT ... WHERE name = ?. */
  function FindByName(es: seq<Entity>, name: string): Option<Id> {
    if es == [] then None
    else if es[0].name == Normalise(name) then Some(es[0].id)
    else FindByName(es[1..], name)
  }

  predicate HasAlias(e: Entity, key: string) {
    exists a :: a in e.aliases && Lower(a) == key
  }

  /** The first row with an alias equal up to case. */
  function FindByAlias(es: seq<Entity>, alias: string): Option<Id> {
    if es == [] then None
    else if HasAlias(es[0], Normalise(alias)) then Some(es[0].id)
    else FindByAlias(es[1..], alias)
  }

  /** Names first, then aliases. */
  function Resolve(es: seq<Entity>, mention: string): Option<Id> {
    var key := Normalise(mention);
    if FindByName(es, key).Some? then FindByName(es, key) else FindByAlias(es, key)
  }

  // ---- updates ----

  /** None when the unique name index or the primary key rejects the row. */
  function Created(g: Graph, name: string, kind: string, uuid: Id): Option<Graph> {
    if FindByName(g.entities, name).Some? || HasEntity(g.entities, uuid) then None
    else Some(g.(entities := g.entities + [Entity(uuid, Normalise(name), kind, [])]))
  }

  /** None when the foreign key rejects a mention of a missing entity. */
  function Recorded(g: Graph, id: Id, memory: string, text: string): Option<Graph> {
    if !HasEntity(g.entities, id) then None else Some(g.(mentions := g.mentions + [Mention(id, memory, text)]))
  }

  function SetEntity(es: seq<Entity>, id: Id, e: Entity): seq<Entity> {
    seq(|es|, i requires 0 <= i < |es| => if es[i].id == id then e else es[i])
  }

  function GetEntity(es: seq<Entity>, id: Id): Option<Entity> {
    if es == [] then None else if es[0].id == id then Some(es[0]) else GetEntity(es[1..], id)
  }

  /** None when there is no such entity. */
  function AliasAdded(g: Graph, id: Id, alias: string): Option<Graph> {
    var e := GetEntity(g.entities, id);
    if e.None? then None
    else if HasAlias(e.value, Lower(alias)) then Some(g)
    else Some(g.(entities := SetEntity(g.entities, id, e.value.(aliases := e.value.aliases + [alias]))))
  }

  /** First occurrences only. */
  function Unique(ss: seq<string>): (r: seq<string>)
    ensures forall s :: s in r <==> s in ss
  {
    if ss == [] then []
    else
      var before, last := Unique(ss[..|ss| - 1]), ss[|ss| - 1];
      assert ss == ss[..|ss| - 1] + [last];
      if last in before then before else before + [last]
  }

  function Redirect(m: Mention, source: Id, target: Id): Mention {
    if m.entity == source then m.(entity := target) else m
  }

  function Redirected(ms: seq<Mention>, source: Id, target: Id): seq<Mention> {
    seq(|ms|, i requires 0 <= i < |ms| => Redirect(ms[i], source, target))
  }

  predicate Mentioned(ms: seq<Mention>, id: Id) {
    exists i :: 0 <= i < |ms| && ms[i].entity == id
  }

  function AliasesOf(es: seq<Entity>, id: Id): seq<string> {
    var e := GetEntity(es, id);
    if e.None? then [] else e.value.aliases
  }

  function NameOf(es: seq<Entity>, id: Id): string {
    var e := GetEntity(es, id);
    if e.None? then "" else e.value.name
  }

  function MergedAliases(es: seq<Entity>, source: Id, target: Id): seq<string> {
    var name := NameOf(es, source);
    Unique(AliasesOf(es, target) + (if name == "" then [] else [name]) + AliasesOf(es, source))
  }

  function NotEntity(id: Id): Entity -> bool { (e: Entity) => e.id != id }

  function NotMentioning(id: Id): Mention -> bool { (m: Mention) => m.entity != id }

  /** None when moving the mentions breaks their foreign key: nothing changes then. */
  function Merged(g: Graph, source: Id, target: Id): Option<Graph> {
    if Mentioned(g.mentions, source) && !HasEntity(g.entities, target) then None
    else
      var moved := Redirected(g.mentions, source, target);
      var row := GetEntity(g.entities, target);
      var updated := if row.None? then g.entities
        else SetEntity(g.entities, target, row.value.(aliases := MergedAliases(g.entities, source, target)));
      Some(Graph(Filter(updated, NotEntity(source)), Filter(moved, NotMentioning(source))))
  }

  // ---- what each update promises ----

  ghost predicate Distinct(es: seq<Entity>) {
    forall i, j :: 0 <= i < j < |es| ==> es[i].id != es[j].id
  }

  /** A new entity has the folded name, its kind and no alias; a taken name or id changes nothing. */
  ghost predicate Creates(before: Graph, name: string, kind: string, uuid: Id, after: Graph, ok: bool) {
    && (ok <==> forall e :: e in before.entities ==> e.name != Lower(Trim(name)) && e.id != uuid)
    && after == if ok then before.(entities := before.entities + [Entity(uuid, Lower(Trim(name)), kind, [])])
                else before
  }

  /** A mention of an entity that exists goes to the end. */
  ghost predicate Records(before: Graph, id: Id, memory: string, text: string, after: Graph, ok: bool) {
    && (ok <==> exists e :: e in before.entities && e.id == id)
    && after == if ok then before.(mentions := before.mentions + [Mention(id, memory, text)]) else before
  }

  ghost predicate SameAlias(aliases: seq<string>, alias: string) {
    exists a :: a in aliases && Lower(a) == Lower(alias)
  }

  /** The entity gets the alias as it is written, unless it has it up to case. */
  ghost predicate AddsAlias(before: Graph, id: Id, alias: string, after: Graph, ok: bool) {
    && (ok <==> exists e :: e in before.entities && e.id == id)
    && after.mentions == before.mentions && |after.entities| == |before.entities|
    && forall i :: 0 <= i < |before.entities| ==>
        var e := before.entities[i];
        after.entities[i]
        == if e.id == id && !SameAlias(e.aliases, alias) then e.(aliases := e.aliases + [alias]) else e
  }

  /** The aliases of a merged entity: its own, the other's name if there is one, and the other's. */
  function Joined(t: Entity, s: Entity): seq<string> {
    Unique(t.aliases + (if s.name == "" then [] else [s.name]) + s.aliases)
  }

  /** The source of a merge into another entity is gone, the target keeps its id, name and kind and
      gets the joined aliases, every mention of the source is of the target now, and every other
      entity and mention stays as it was. */
  ghost predicate Merges(before: Graph, s: nat, t: nat, after: Graph)
    requires s < |before.entities| && t < |before.entities|
  {
    var es := before.entities;
    && after.entities
       == (var joined := es[t := es[t].(aliases := Joined(es[t], es[s]))]; joined[..s] + joined[s + 1..])
    && |after.mentions| == |before.mentions|
    && forall i :: 0 <= i < |before.mentions| ==>
        var m := before.mentions[i];
        after.mentions[i] == Mention(if m.entity == es[s].id then es[t].id else m.entity, m.memory, m.text)
  }

  /** Unique keeps each string where it first stands. */
  lemma {:induction false} UniqueAre(ss: seq<string>, a: string, b: string)
    ensures NoRepeats(Unique(ss))
    ensures Precedes(Unique(ss), a, b) <==> exists i :: 0 <= i < |ss| && ss[i] == a && b in ss && b !in ss[..i + 1]
  {
    if ss != [] {
      var before, last := ss[..|ss| - 1], ss[|ss| - 1];
      assert ss == before + [last];
      UniqueAre(before, a, b);
      PrecedesLast(Unique(before), last, a, b);
      FirstStands(before, last, a, b);
    }
  }

  lemma FirstStands(before: seq<string>, last: string, a: string, b: string)
    ensures var ss := before + [last];
      (exists i :: 0 <= i < |ss| && ss[i] == a && b in ss && b !in ss[..i + 1])
      <==> (exists i :: 0 <= i < |before| && before[i] == a && b in before && b !in before[..i + 1])
           || (a in before && b == last && b !in before)
  {
    var ss := before + [last];
    assert forall i :: 0 <= i < |before| ==> ss[i] == before[i] && ss[..i + 1] == before[..i + 1];
    assert ss[..|before| + 1] == ss;
    if a in before && b == last && b !in before {
      var i :| 0 <= i < |before| && before[i] == a;
      assert ss[i] == a && b !in ss[..i + 1];
    }
    if i :| 0 <= i < |before| && before[i] == a && b in before && b !in before[..i + 1] {
      assert ss[i] == a;
    }
  }

  lemma {:induction false} NameTaken(es: seq<Entity>, name: string)
    ensures FindByName(es, name).Some? <==> exists e :: e in es && e.name == Normalise(name)
  {
    if es != [] {
      NameTaken(es[1..], name);
      assert es == [es[0]] + es[1..];
    }
  }

  lemma EntityThere(es: seq<Entity>, id: Id)
    ensures HasEntity(es, id) <==> exists e :: e in es && e.id == id
  {
    if e :| e in es && e.id == id {
      var i :| 0 <= i < |es| && es[i] == e;
    }
  }

  lemma CreateKeepsPromise(g: Graph, name: string, kind: string, uuid: Id)
    ensures var r := Created(g, name, kind, uuid);
      Creates(g, name, kind, uuid, if r.Some? then r.value else g, r.Some?)
  {
    hide Trim, Lower;
    NameTaken(g.entities, name);
    EntityThere(g.entities, uuid);
  }

  lemma RecordKeepsPromise(g: Graph, id: Id, memory: string, text: string)
    ensures var r := Recorded(g, id, memory, text);
      Records(g, id, memory, text, if r.Some? then r.value else g, r.Some?)
  {
    EntityThere(g.entities, id);
  }

  lemma {:induction false} GotEntity(es: seq<Entity>, id: Id)
    ensures GetEntity(es, id).Some? ==> GetEntity(es, id).value.id == id
  {
    if es != [] {
      GotEntity(es[1..], id);
    }
  }

  lemma {:induction false} NoEntity(es: seq<Entity>, id: Id)
    ensures GetEntity(es, id).None? <==> !HasEntity(es, id)
  {
    if es != [] && es[0].id != id {
      NoEntity(es[1..], id);
      if HasEntity(es, id) {
        var i :| 0 <= i < |es| && es[i].id == id;
        assert es[1..][i - 1].id == id;
      }
      if HasEntity(es[1..], id) {
        var i :| 0 <= i < |es[1..]| && es[1..][i].id == id;
        assert es[i + 1].id == id;
      }
    } else if es != [] {
      assert es[0].id == id;
    }
  }

  lemma {:induction false} GetFound(es: seq<Entity>, i: nat)
    requires Distinct(es) && i < |es|
    ensures GetEntity(es, es[i].id) == Some(es[i])
  {
    if i > 0 {
      assert es[1..][i - 1] == es[i];
      GetFound(es[1..], i - 1);
    }
  }

  lemma AliasKeepsPromise(g: Graph, id: Id, alias: string)
    requires Distinct(g.entities)
    ensures var r := AliasAdded(g, id, alias);
      AddsAlias(g, id, alias, if r.Some? then r.value else g, r.Some?)
  {
    hide Lower, GetEntity, HasAlias;
    NoEntity(g.entities, id);
    EntityThere(g.entities, id);
    forall i | 0 <= i < |g.entities| && g.entities[i].id == id
      ensures GetEntity(g.entities, id) == Some(g.entities[i])
    {
      GetFound(g.entities, i);
    }
    forall e { AliasThere(e, alias); }
  }

  lemma NoneLeft(ms: seq<Mention>, source: Id, target: Id)
    requires source != target
    ensures Filter(Redirected(ms, source, target), NotMentioning(source)) == Redirected(ms, source, target)
  {
    AllKept(Redirected(ms, source, target), source);
  }

  lemma AllKept(ms: seq<Mention>, id: Id)
    requires forall m :: m in ms ==> m.entity != id
    ensures Filter(ms, NotMentioning(id)) == ms
  {
    forall i | 0 <= i < |ms|
      ensures NotMentioning(id)(ms[i])
    {
      assert ms[i] in ms;
    }
    FilterAll(ms, NotMentioning(id));
  }

  lemma MergeKeepsPromise(g: Graph, s: nat, t: nat)
    requires Distinct(g.entities) && s < |g.entities| && t < |g.entities| && s != t
    ensures var source, target := g.entities[s].id, g.entities[t].id;
      Merged(g, source, target).Some? && Merges(g, s, t, Merged(g, source, target).value)
  {
    hide Unique, GetEntity, Filter;
    var es := g.entities;
    var source, target := es[s].id, es[t].id;
    GetFound(es, s);
    GetFound(es, t);
    NoneLeft(g.mentions, source, target);
    var joined := es[t := es[t].(aliases := Joined(es[t], es[s]))];
    assert SetEntity(es, target, joined[t]) == joined;
    FilterDropsOne(joined, s, NotEntity(source));
    assert HasEntity(es, target);
  }

  lemma AliasThere(e: Entity, alias: string)
    ensures HasAlias(e, Lower(alias)) <==> SameAlias(e.aliases, alias)
  {
  }

  // ---- the store ----

  class EntityStore {
    var entities: seq<Entity>
    var mentions: seq<Mention>

    function State(): Graph
      reads this
    {
      Graph(entities, mentions)
    }

    constructor ()
      ensures State() == EMPTY_GRAPH
    {
      entities, mentions := [], [];
    }

    method CreateEntity(name: string, kind: string, uuid: Id) returns (id: Option<Id>)
      modifies this`entities
      ensures match Created(old(State()), name, kind, uuid)
        case None => id == None && State() == old(State())
        case Some(g) => id == Some(uuid) && State() == g
      ensures Creates(old(State()), name, kind, uuid, State(), id.Some?)
    {
      hide Creates, FindByName, HasEntity, Normalise;
      CreateKeepsPromise(State(), name, kind, uuid);
      if FindByName(entities, name).Some? || HasEntity(entities, uuid) {
        return None;
      }
      entities := entities + [Entity(uuid, Normalise(name), kind, [])];
      id := Some(uuid);
    }

    method AddAlias(id: Id, alias: string) returns (ok: bool)
      modifies this`entities
      ensures match AliasAdded(old(State()), id, alias)
        case None => !ok && State() == old(State())
        case Some(g) => ok && State() == g
      ensures old(Distinct(entities)) ==> AddsAlias(old(State()), id, alias, State(), ok)
    {
      hide AddsAlias, Distinct;
      if Distinct(entities) {
        AliasKeepsPromise(State(), id, alias);
      }
      var e := GetEntity(entities, id);
      if e.None? {
        return false;
      }
      for i := 0 to |e.value.aliases|
        invariant entities == old(entities)
        invariant forall j :: 0 <= j < i ==> Lower(e.value.aliases[j]) != Lower(alias)
      {
        if Lower(e.value.aliases[i]) == Lower(alias) {
          assert HasAlias(e.value, Lower(alias)) by { assert e.value.aliases[i] in e.value.aliases; }
          return true;
        }
      }
      entities := SetEntity(entities, id, e.value.(aliases := e.value.aliases + [alias]));
      ok := true;
    }

    method FindAlias(alias: string) returns (r: Option<Id>)
      ensures r == FindByAlias(entities, alias)
    {
      var normalized := Normalise(alias);
      assert entities[0..] == entities;
      for i := 0 to |entities|
        invariant FindByAlias(entities, alias) == FindByAlias(entities[i..], alias)
      {
        var e := entities[i];
        assert entities[i..][0] == e && entities[i..][1..] == entities[i + 1..];
        for j := 0 to |e.aliases|
          invariant forall k :: 0 <= k < j ==> Lower(e.aliases[k]) != normalized
        {
          if Lower(e.aliases[j]) == normalized {
            assert e.aliases[j] in e.aliases;
            return Some(e.id);
          }
        }
      }
      r := None;
    }

    method ResolveMention(mention: string) returns (r: Option<Id>)
      ensures r == Resolve(entities, mention)
    {
      var normalized := Normalise(mention);
      r := FindByName(entities, normalized);
      if r.Some? {
        return;
      }
      r := FindAlias(normalized);
    }

    method RecordMention(id: Id, memory: string, text: string) returns (ok: bool)
      modifies this`mentions
      ensures match Recorded(old(State()), id, memory, text)
        case None => !ok && State() == old(State())
        case Some(g) => ok && State() == g
      ensures Records(old(State()), id, memory, text, State(), ok)
    {
      hide Records, HasEntity;
      RecordKeepsPromise(State(), id, memory, text);
      if !HasEntity(entities, id) {
        return false;
      }
      mentions := mentions + [Mention(id, memory, text)];
      ok := true;
    }

    /** Mentions move, then the alias lists are joined, then the source row goes. */
    method MergeEntities(source: Id, target: Id) returns (ok: bool)
      modifies this
      ensures match Merged(old(State()), source, target)
        case None => !ok && State() == old(State())
        case Some(g) => ok && State() == g
      ensures old(Distinct(entities)) ==> forall s: nat, t: nat ::
        s < |old(entities)| && t < |old(entities)| && s != t
        && old(entities[s].id) == source && old(entities[t].id) == target ==>
          ok && Merges(old(State()), s, t, State())
    {
      ghost var g := State();
      hide Merges;
      if Distinct(entities) {
        forall s: nat, t: nat | s < |entities| && t < |entities| && s != t
          ensures var r := Merged(g, entities[s].id, entities[t].id); r.Some? && Merges(g, s, t, r.value)
        {
          MergeKeepsPromise(g, s, t);
        }
      }
      if Mentioned(mentions, source) && !HasEntity(entities, target) {
        return false;  // the foreign key rejects the UPDATE: roll back
      }
      mentions := Redirected(mentions, source, target);
      var list := AliasesOf(entities, target);
      var sourceName := NameOf(entities, source);
      if sourceName != "" {
        list := list + [sourceName];
      } else {
        assert list == list + [];
      }
      list := list + AliasesOf(entities, source);
      var merged := UniqueStrings(list);
      var row := GetEntity(entities, target);
      if row.Some? {
        entities := SetEntity(entities, target, row.value.(aliases := merged));
      }
      entities := Filter(entities, NotEntity(source));
      mentions := Filter(mentions, NotMentioning(source));  // ON DELETE CASCADE
      ok := true;
    }
  }

  method UniqueStrings(ss: seq<string>) returns (result: seq<string>)
    ensures result == Unique(ss)
  {
    var seen: set<string> := {};
    result := [];
    for i := 0 to |ss|
      invariant result == Unique(ss[..i])
      invariant forall s :: s in seen <==> s in result
    {
      assert ss[..i + 1][..i] == ss[..i];
      if ss[i] !in seen {
        seen := seen + {ss[i]};
        result := result + [ss[i]];
      }
    }
    assert ss[..|ss|] == ss;
  }
}
