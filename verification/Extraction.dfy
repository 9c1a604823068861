/** The entity-extraction step and the loop that drains its backlog, for any model replies and any
    entity table. */
module Extraction {
  import opened Lists
  import opened Text
  import opened Consumers
  import opened Tables
  import opened Store
  import opened Entities
  import opened EntityLaws
  import opened Backlog

  ghost predicate Sound(g: Graph) { WellFormed(g) && Named(g.entities) }

  /** Recording adds one mention or none, on any table. */
  lemma MentionCounts(g: Graph, text: string, memory: string, kind: string, uuid: Id)
    ensures var (after, ok) := MentionStep(g, text, memory, kind, uuid);
      |after.mentions| == |g.mentions| + if ok then 1 else 0
  {
    hide Resolve, Normalise;
    if Resolve(g.entities, text).Some? {
      ResolvedExists(g.entities, text);
    } else if Created(g, text, kind, uuid).Some? {
      var es := Created(g, text, kind, uuid).value.entities;
      assert es[|g.entities|].id == uuid;
    }
  }

  // ---- what a reply asks for ----

  const MAX_NAME := 50

  /** A name the loop does not skip, and the kind it would be created with. */
  datatype Ask = Ask(text: string, memory: Id, kind: string)

  /** The names of one finding, in order. */
  function NameAsks(classify: string -> string, names: seq<string>, memory: Id): seq<Ask> {
    if names == [] then []
    else
      var before, text := NameAsks(classify, names[..|names| - 1], memory), Trim(names[|names| - 1]);
      if text == "" || ByteLen(text) > MAX_NAME then before else before + [Ask(text, memory, classify(text))]
  }

  function FindingAsks(classify: string -> string, batch: seq<Row>, findings: seq<Finding>): seq<Ask> {
    if findings == [] then []
    else
      var before, f := FindingAsks(classify, batch, findings[..|findings| - 1]), findings[|findings| - 1];
      if InBatch(f, batch) then before + NameAsks(classify, f.names, batch[f.memory - 1].id) else before
  }

  function ReplyAsks(classify: string -> string, batch: seq<Row>, reply: Reply): seq<Ask> {
    if reply.Parsed? then FindingAsks(classify, batch, reply.findings) else []
  }

  /** What the replies of a round ask for, batch by batch. */
  function AllAsks(classify: string -> string, pending: seq<Row>, replies: seq<Reply>): seq<Ask> {
    if replies == [] then []
    else
      var n := |replies| - 1;
      AllAsks(classify, pending, replies[..n]) + ReplyAsks(classify, BatchAt(pending, n), replies[n])
  }

  lemma NothingAsked(classify: string -> string, pending: seq<Row>)
    ensures Follows([], AllAsks(classify, pending, []))
  {
  }

  lemma AsksNext(classify: string -> string, pending: seq<Row>, replies: seq<Reply>, reply: Reply)
    ensures AllAsks(classify, pending, replies + [reply])
         == AllAsks(classify, pending, replies) + ReplyAsks(classify, BatchAt(pending, |replies|), reply)
  {
    hide ReplyAsks, BatchAt;
    assert (replies + [reply])[..|replies|] == replies;
  }

  /** The actions resolve, or create, and record exactly what was asked, in order. */
  ghost predicate Follows(actions: seq<Action>, asks: seq<Ask>) {
    |actions| == |asks| && forall i :: 0 <= i < |actions| ==> Answers(actions[i], asks[i])
  }

  ghost predicate Answers(a: Action, ask: Ask) {
    a.DoMention? && a.text == ask.text && a.memory == ask.memory && a.kind == ask.kind
  }

  ghost predicate OnlyMentions(actions: seq<Action>) {
    forall i :: 0 <= i < |actions| ==> actions[i].DoMention? && Trim(actions[i].text) != ""
  }

  lemma {:induction false} ActsConcat(g: Graph, a: seq<Action>, b: seq<Action>)
    ensures Acts(g, a + b) == Acts(Acts(g, a), b)
    decreases |b|
  {
    hide Act;
    if b == [] {
      assert a + b == a;
    } else {
      assert (a + b)[..|a + b| - 1] == a + b[..|b| - 1];
      ActsConcat(g, a, b[..|b| - 1]);
    }
  }

  lemma NothingNamed(g: Graph, classify: string -> string, memory: Id)
    ensures Acts(g, []) == g && Follows([], NameAsks(classify, [], memory))
  {
  }

  lemma NamesNext(classify: string -> string, names: seq<string>, i: nat, memory: Id)
    requires i < |names|
    ensures var before, text := NameAsks(classify, names[..i], memory), Trim(names[i]);
      && NameAsks(classify, names[..i + 1], memory)
         == (if text == "" || ByteLen(text) > MAX_NAME then before else before + [Ask(text, memory, classify(text))])
      && Trim(text) == text
  {
    hide ByteLen;
    assert names[..i + 1][..i] == names[..i];
  }

  lemma MentionNext(g: Graph, actions: seq<Action>, a: Action, asks: seq<Ask>)
    requires Follows(actions, asks) && a.DoMention?
    ensures Acts(g, actions + [a]) == MentionStep(Acts(g, actions), a.text, a.memory, a.kind, a.uuid).0
    ensures a.memory != "" ==> Follows(actions + [a], asks + [Ask(a.text, a.memory, a.kind)])
  {
    hide MentionStep;
    assert (actions + [a])[..|actions|] == actions;
  }

  lemma NothingReported(g: Graph, classify: string -> string, batch: seq<Row>, rows: seq<Row>)
    ensures Acts(g, []) == g && Follows([], FindingAsks(classify, batch, []))
    ensures MarkEach(rows, Reported(batch, [])) == rows
  {
  }

  lemma ReportedNext(classify: string -> string, batch: seq<Row>, findings: seq<Finding>, i: nat, rows: seq<Row>)
    requires i < |findings|
    ensures var f, now, next := findings[i], findings[..i], findings[..i + 1];
      if 1 <= f.memory <= |batch| then
        FindingAsks(classify, batch, next)
        == FindingAsks(classify, batch, now) + NameAsks(classify, f.names, batch[f.memory - 1].id)
        && MarkEach(rows, Reported(batch, next))
           == MarkRows(MarkEach(rows, Reported(batch, now)), batch[f.memory - 1].id, EntityExtract)
      else
        FindingAsks(classify, batch, next) == FindingAsks(classify, batch, now)
        && Reported(batch, next) == Reported(batch, now)
  {
    hide NameAsks, MarkRows;
    assert findings[..i + 1][..i] == findings[..i];
    if InBatch(findings[i], batch) {
      var r := batch[findings[i].memory - 1];
      assert (Reported(batch, findings[..i]) + [r])[..|Reported(batch, findings[..i])|]
          == Reported(batch, findings[..i]);
    }
  }

  lemma ExtractName()
    ensures ConsumerByName("entity-extract") == EntityExtract
  {
  }

  lemma FollowsConcat(a: seq<Action>, x: seq<Ask>, b: seq<Action>, y: seq<Ask>)
    requires Follows(a, x) && Follows(b, y)
    ensures Follows(a + b, x + y)
  {
  }

  lemma {:induction false} AsksNonempty(classify: string -> string, batch: seq<Row>, findings: seq<Finding>)
    ensures forall a :: a in FindingAsks(classify, batch, findings) ==> a.text != "" && Trim(a.text) == a.text
  {
    hide Trim, ByteLen;
    if findings != [] {
      AsksNonempty(classify, batch, findings[..|findings| - 1]);
      var f := findings[|findings| - 1];
      if InBatch(f, batch) {
        NamesNonempty(classify, f.names, batch[f.memory - 1].id);
      }
    }
  }

  lemma {:induction false} NamesNonempty(classify: string -> string, names: seq<string>, memory: Id)
    ensures forall a :: a in NameAsks(classify, names, memory) ==> a.text != "" && Trim(a.text) == a.text
  {
    hide ByteLen;
    if names != [] {
      NamesNonempty(classify, names[..|names| - 1], memory);
    }
  }

  lemma FollowsMentions(classify: string -> string, batch: seq<Row>, reply: Reply, actions: seq<Action>)
    requires Follows(actions, ReplyAsks(classify, batch, reply))
    ensures OnlyMentions(actions)
  {
    hide Trim, FindingAsks;
    if reply.Parsed? {
      AsksNonempty(classify, batch, reply.findings);
      var asks := FindingAsks(classify, batch, reply.findings);
      forall i | 0 <= i < |actions|
        ensures actions[i].DoMention? && Trim(actions[i].text) != ""
      {
        assert asks[i] in asks && Answers(actions[i], asks[i]);
      }
    }
  }

  class EntityExtractionTask {
    const store: SqliteStore
    const graph: EntityStore
    const classify: string -> string
    const limit: int

    constructor (store: SqliteStore, graph: EntityStore, classify: string -> string, limit: int)
      ensures this.store == store && this.graph == graph && this.limit == limit
    {
      this.store, this.graph, this.classify, this.limit := store, graph, classify, limit;
    }

    /** Resolve or create one name and record the mention; a name the table rejects is skipped. */
    method RecordName(text: string, memory: Row) returns (recorded: bool, ghost uuid: Id)
      modifies graph
      ensures (graph.State(), recorded) == MentionStep(old(graph.State()), text, memory.id, classify(text), uuid)
      ensures |graph.mentions| == old(|graph.mentions|) + if recorded then 1 else 0
    {
      hide Resolve, Created, Recorded;
      var generated: Id := *;
      uuid := generated;
      MentionCounts(graph.State(), text, memory.id, classify(text), generated);
      ghost var step := MentionStep(graph.State(), text, memory.id, classify(text), generated);
      var found := graph.ResolveMention(text);
      if found.None? {
        found := graph.CreateEntity(text, classify(text), generated);
        if found.None? {
          return false, uuid;
        }
      }
      var ok := graph.RecordMention(found.value, memory.id, text);
      assert graph.State() == step.0;
      recorded := true;
    }

    /** The names of one finding. */
    method RecordNames(names: seq<string>, memory: Row) returns (n: nat, ghost actions: seq<Action>)
      modifies graph
      ensures |graph.mentions| == old(|graph.mentions|) + n && n <= |actions|
      ensures Follows(actions, NameAsks(classify, names, memory.id))
      ensures graph.State() == Acts(old(graph.State()), actions)
    {
      hide *;
      n, actions := 0, [];
      NothingNamed(graph.State(), classify, memory.id);
      for i := 0 to |names|
        invariant |graph.mentions| == old(|graph.mentions|) + n && n <= |actions|
        invariant Follows(actions, NameAsks(classify, names[..i], memory.id))
        invariant graph.State() == Acts(old(graph.State()), actions)
      {
        NamesNext(classify, names, i, memory.id);
        var text := Trim(names[i]);
        if text == "" || ByteLen(text) > MAX_NAME {
          continue;
        }
        var recorded, uuid := RecordName(text, memory);
        ghost var act := DoMention(text, memory.id, classify(text), uuid);
        MentionNext(old(graph.State()), actions, act, NameAsks(classify, names[..i], memory.id));
        actions := actions + [act];
        if recorded {
          n := n + 1;
        }
      }
      assert names[..|names|] == names;
    }

    method MarkAllConsumed(batch: seq<Row>)
      modifies store`rows
      ensures store.rows == MarkEach(old(store.rows), batch)
    {
      for i := 0 to |batch|
        invariant store.rows == MarkEach(old(store.rows), batch[..i])
      {
        assert batch[..i + 1][..i] == batch[..i];
        store.MarkConsumed(batch[i].id, "entity-extract");
      }
      assert batch[..|batch|] == batch;
    }

    /** The findings of a readable reply. */
    method RecordFindings(batch: seq<Row>, findings: seq<Finding>) returns (n: nat, ghost actions: seq<Action>)
      modifies graph, store`rows
      ensures store.rows == MarkEach(old(store.rows), Reported(batch, findings))
      ensures Follows(actions, FindingAsks(classify, batch, findings))
      ensures graph.State() == Acts(old(graph.State()), actions)
      ensures |graph.mentions| == old(|graph.mentions|) + n && n <= |actions|
    {
      hide *;
      n, actions := 0, [];
      NothingReported(graph.State(), classify, batch, store.rows);
      ExtractName();
      for i := 0 to |findings|
        invariant |graph.mentions| == old(|graph.mentions|) + n && n <= |actions|
        invariant store.rows == MarkEach(old(store.rows), Reported(batch, findings[..i]))
        invariant Follows(actions, FindingAsks(classify, batch, findings[..i]))
        invariant graph.State() == Acts(old(graph.State()), actions)
      {
        ReportedNext(classify, batch, findings, i, old(store.rows));
        var idx := findings[i].memory - 1;
        if idx < 0 || idx >= |batch| {
          continue;
        }
        var mem := batch[idx];
        var recorded, more := RecordNames(findings[i].names, mem);
        ActsConcat(old(graph.State()), actions, more);
        FollowsConcat(actions, FindingAsks(classify, batch, findings[..i]), more,
                      NameAsks(classify, findings[i].names, mem.id));
        actions := actions + more;
        n := n + recorded;
        store.MarkConsumed(mem.id, "entity-extract");
      }
      assert findings[..|findings|] == findings;
    }

    /** One batch and whatever the model says about it: the reply settles which memories are
        marked and which names are looked up, and nothing else changes. */
    method RunBatch(batch: seq<Row>, reply: Reply) returns (n: nat, ghost actions: seq<Action>)
      modifies graph, store`rows
      ensures store.rows == MarkEach(old(store.rows), Settled(batch, reply))
      ensures Follows(actions, ReplyAsks(classify, batch, reply))
      ensures graph.State() == Acts(old(graph.State()), actions)
      ensures |graph.mentions| == old(|graph.mentions|) + n
      ensures n > 0 ==> Settled(batch, reply) != []
    {
      hide Reported, FindingAsks, MarkRows, Act;
      n, actions := 0, [];
      match reply
      case Failed =>
      case Garbled => MarkAllConsumed(batch);  // so that it is not retried for ever
      case Parsed(findings) =>
        n, actions := RecordFindings(batch, findings);
        AskedIsReported(classify, batch, findings);
    }

    /** One run over the pending memories. Its replies settle exactly which rows it marks, so they
        decide whether it empties the backlog; if it recorded anything, the backlog shrank. */
    method Run() returns (extracted: nat, ghost actions: seq<Action>, ghost replies: seq<Reply>)
      requires DistinctIds(store.rows)
      modifies graph, store`rows
      ensures |graph.mentions| == old(|graph.mentions|) + extracted
      ensures OnlyMentions(actions) && graph.State() == Acts(old(graph.State()), actions)
      ensures Follows(actions, AllAsks(classify, Pending(old(store.rows), limit), replies))
      ensures Answered(Pending(old(store.rows), limit), replies)
      ensures store.rows == MarkEach(old(store.rows), AllSettled(Pending(old(store.rows), limit), replies))
      ensures Waiting(store.rows) == {} <==> Clears(old(store.rows), limit, replies)
      ensures extracted > 0 ==> Waiting(store.rows) < Waiting(old(store.rows))
      ensures old(Sound(graph.State())) ==> Sound(graph.State())
    {
      hide IsPending, Pending, Waiting, Acts, MarkEach, Follows, Settled, BatchAt, WellFormed, Clears, OnlyMentions,
           ReplyAsks, AllAsks;
      extracted, actions, replies := 0, [], [];
      NothingAsked(classify, Pending(store.rows, limit));
      var pending := Pending(store.rows, limit);
      NoActions(graph.State());
      NothingSettled(store.rows, pending);
      var i := 0;
      while i < |pending|
        invariant i == BATCH_SIZE * |replies| && (replies == [] || BATCH_SIZE * (|replies| - 1) < |pending|)
        invariant |graph.mentions| == old(|graph.mentions|) + extracted
        invariant OnlyMentions(actions) && graph.State() == Acts(old(graph.State()), actions)
        invariant Follows(actions, AllAsks(classify, pending, replies))
        invariant store.rows == MarkEach(old(store.rows), AllSettled(pending, replies))
        invariant extracted > 0 ==> AllSettled(pending, replies) != []
      {
        var end := if i + BATCH_SIZE > |pending| then |pending| else i + BATCH_SIZE;
        var reply: Reply := *;
        BatchIs(pending, |replies|);
        var n, more := RunBatch(pending[i..end], reply);
        FollowsMentions(classify, pending[i..end], reply, more);
        MentionsConcat(old(graph.State()), actions, more);
        SettledNext(old(store.rows), pending, replies, reply);
        AsksNext(classify, pending, replies, reply);
        FollowsConcat(actions, AllAsks(classify, pending, replies), more,
                      ReplyAsks(classify, BatchAt(pending, |replies|), reply));
        actions, replies := actions + more, replies + [reply];
        extracted := extracted + n;
        i := i + BATCH_SIZE;
      }
      RoundClearsIff(old(store.rows), limit, replies);
      SettledShrinks(old(store.rows), limit, replies);
      if old(Sound(graph.State())) {
        ExtractionOnlyAdds(old(graph.State()), actions);
      }
    }

    /** The one-off drain: runs extraction until a round records nothing or nothing is left. It ends
        for every sequence of replies, after at most one round more than there were memories; it
        leaves something waiting only if its last round recorded nothing, and whether it does is
        decided by the replies of that round. */
    method Drain() returns (total: nat, rounds: nat, ghost actions: seq<Action>, ghost last: Round)
      requires DistinctIds(store.rows)
      modifies graph, store`rows
      ensures |graph.mentions| == old(|graph.mentions|) + total
      ensures OnlyMentions(actions) && graph.State() == Acts(old(graph.State()), actions)
      ensures Waiting(store.rows) <= Waiting(old(store.rows))
      ensures rounds <= |Waiting(old(store.rows))| + 1
      ensures rounds == 0 <==> Waiting(old(store.rows)) == {}
      ensures Waiting(store.rows) == {} || last.recorded == 0
      ensures rounds > 0 ==>
        && store.rows == MarkEach(last.rows, AllSettled(Pending(last.rows, limit), last.replies))
        && (Waiting(store.rows) == {} <==> Clears(last.rows, limit, last.replies))
      ensures old(Sound(graph.State())) ==> Sound(graph.State())
    {
      hide IsPending, Waiting, WellFormed, Acts, Clears, OnlyMentions, Pending, AllSettled, MarkEach;
      total, rounds, actions, last := 0, 0, [], Round([], [], 0);
      NoActions(graph.State());
      ghost var start := Waiting(store.rows);
      NothingPending(store.rows, 0x4000_0000);
      var startBacklog := Pending(store.rows, 0x4000_0000);
      if |startBacklog| == 0 {
        return;
      }
      while true
        invariant DistinctIds(store.rows)
        invariant |graph.mentions| == old(|graph.mentions|) + total
        invariant OnlyMentions(actions) && graph.State() == Acts(old(graph.State()), actions)
        invariant Waiting(store.rows) <= start && rounds + |Waiting(store.rows)| <= |start|
        decreases Waiting(store.rows)
      {
        ghost var rows := store.rows;
        rounds := rounds + 1;
        var n, more, replies := Run();
        last := Round(rows, replies, n);
        SettledShrinks(rows, limit, replies);
        SameIds(rows, AllSettled(Pending(rows, limit), replies));
        MentionsConcat(old(graph.State()), actions, more);
        actions := actions + more;
        if n == 0 {
          break;
        }
        SmallerSet(Waiting(store.rows), Waiting(rows));
        total := total + n;
        NothingPending(store.rows, 0x4000_0000);
        var remaining := Pending(store.rows, 0x4000_0000);
        if |remaining| == 0 {
          break;
        }
      }
      if old(Sound(graph.State())) {
        ExtractionOnlyAdds(old(graph.State()), actions);
      }
    }
  }

  /** What the last round of a drain saw, was told, and recorded. */
  datatype Round = Round(rows: seq<Row>, replies: seq<Reply>, recorded: nat)

  lemma NothingSettled(rows: seq<Row>, pending: seq<Row>)
    ensures MarkEach(rows, AllSettled(pending, [])) == rows
  {
  }

  lemma BatchIs(pending: seq<Row>, k: nat)
    requires BATCH_SIZE * k < |pending|
    ensures var i := BATCH_SIZE * k;
      BatchAt(pending, k) == pending[i..if i + BATCH_SIZE > |pending| then |pending| else i + BATCH_SIZE]
  {
  }

  lemma SettledNext(rows: seq<Row>, pending: seq<Row>, replies: seq<Reply>, reply: Reply)
    ensures var settled, more := AllSettled(pending, replies), Settled(BatchAt(pending, |replies|), reply);
      && AllSettled(pending, replies + [reply]) == settled + more
      && MarkEach(rows, settled + more) == MarkEach(MarkEach(rows, settled), more)
  {
    hide Settled, BatchAt, MarkEach;
    assert (replies + [reply])[..|replies|] == replies;
    MarkEachConcat(rows, AllSettled(pending, replies), Settled(BatchAt(pending, |replies|), reply));
  }

  lemma MentionsConcat(g: Graph, a: seq<Action>, b: seq<Action>)
    requires OnlyMentions(a) && OnlyMentions(b)
    ensures OnlyMentions(a + b) && Acts(g, a + b) == Acts(Acts(g, a), b)
  {
    hide Acts, Trim;
    ActsConcat(g, a, b);
  }

  lemma SameIds(rows: seq<Row>, settled: seq<Row>)
    requires DistinctIds(rows)
    ensures DistinctIds(MarkEach(rows, settled))
  {
    hide MarkEach, Marked;
    MarkEachAt(rows, settled);
  }

  lemma {:induction false} AskedIsReported(classify: string -> string, batch: seq<Row>, findings: seq<Finding>)
    ensures FindingAsks(classify, batch, findings) != [] ==> Reported(batch, findings) != []
  {
    hide NameAsks;
    if findings != [] {
      AskedIsReported(classify, batch, findings[..|findings| - 1]);
    }
  }

  /** A round of readable replies that report nothing, or of failed calls, looks up no name and marks
      no row: it returns 0, ends the drain, and leaves everything waiting. */
  lemma ZeroIsNotDrained(classify: string -> string, rows: seq<Row>, limit: int, replies: seq<Reply>)
    requires DistinctIds(rows) && Waiting(rows) != {} && Answered(Pending(rows, limit), replies)
    requires forall k :: 0 <= k < |replies| ==> replies[k] in {Parsed([]), Failed}
    ensures forall k :: 0 <= k < |replies| ==>
      ReplyAsks(classify, BatchAt(Pending(rows, limit), k), replies[k]) == []
    ensures MarkEach(rows, AllSettled(Pending(rows, limit), replies)) == rows
    ensures !Clears(rows, limit, replies)
  {
    hide IsPending, Pending, Waiting, Clears, BatchAt;
    SilentRound(rows, Pending(rows, limit), replies);
    RoundClearsIff(rows, limit, replies);
  }

  lemma SmallerSet(a: set<nat>, b: set<nat>)
    requires a < b
    ensures |a| < |b|
  {
    assert b == a + (b - a);
  }

  lemma NoActions(g: Graph)
    ensures Acts(g, []) == g && OnlyMentions([])
  {
  }

  lemma {:induction false} MentionsAllowed(g: Graph, actions: seq<Action>)
    requires OnlyMentions(actions)
    ensures AllAllowed(g, actions)
    ensures forall id :: Redirects(actions, id) == id
  {
    hide Trim;
    if actions != [] {
      MentionsAllowed(g, actions[..|actions| - 1]);
    }
  }

  /** Whatever the model answered, extraction only adds: every name keeps its entity, and every
      mention that was there stays as it was. */
  lemma ExtractionOnlyAdds(g: Graph, actions: seq<Action>)
    requires Sound(g) && OnlyMentions(actions)
    ensures Sound(Acts(g, actions))
    ensures forall m, id :: Resolve(g.entities, m) == Some(id) ==> Resolve(Acts(g, actions).entities, m) == Some(id)
    ensures g.mentions <= Acts(g, actions).mentions
  {
    hide Resolve, WellFormed, Named, Acts, AllAllowed;
    MentionsAllowed(g, actions);
    RunIsQuotient(g, actions);
    forall m, id: Id | Resolve(g.entities, m) == Some(id)
      ensures Resolve(Acts(g, actions).entities, m) == Some(id)
    {
      assert Redirects(actions, id) == id;
    }
    var after := Acts(g, actions).mentions;
    forall i | 0 <= i < |g.mentions|
      ensures after[i] == g.mentions[i]
    {
      assert after[i] == g.mentions[i].(entity := Redirects(actions, g.mentions[i].entity));
    }
  }

  // ---- which names are asked for ----

  /** Not empty, and at most fifty bytes. */
  predicate Admissible(text: string) { text != "" && ByteLen(text) <= 50 }

  function AskOf(classify: string -> string, memory: Id): string -> Ask {
    (text: string) => Ask(text, memory, classify(text))
  }

  /** One ask per admissible name of a finding, trimmed, in order, with the kind it is classified as. */
  lemma {:induction false} NameAsksAre(classify: string -> string, names: seq<string>, memory: Id)
    ensures NameAsks(classify, names, memory) == Map(Filter(Map(names, Trim), Admissible), AskOf(classify, memory))
  {
    hide Trim, ByteLen;
    if names != [] {
      var before, last := names[..|names| - 1], names[|names| - 1];
      assert names == before + [last];
      NameAsksAre(classify, before, memory);
      MapAppend(before, last, Trim);
      FilterLast(Map(before, Trim), Trim(last), Admissible);
      MapAppend(Filter(Map(before, Trim), Admissible), Trim(last), AskOf(classify, memory));
    }
  }

  /** A finding asks for its own names, under the memory its index names; one whose index is outside
      the batch asks for none. */
  lemma OneFindingAsks(classify: string -> string, batch: seq<Row>, f: Finding)
    ensures FindingAsks(classify, batch, [f])
         == if 1 <= f.memory <= |batch| then NameAsks(classify, f.names, batch[f.memory - 1].id) else []
  {
    hide NameAsks;
    var none: seq<Finding> := [];
    assert [f][..0] == none;
    NoneAsked(classify, batch);
  }

  lemma NoneAsked(classify: string -> string, batch: seq<Row>)
    ensures FindingAsks(classify, batch, []) == []
    ensures forall asks: seq<Ask> :: [] + asks == asks
  {
  }

  /** The findings of a reply are taken in order. */
  lemma {:induction false} FindingAsksConcat(classify: string -> string, batch: seq<Row>, a: seq<Finding>,
                                             b: seq<Finding>)
    ensures FindingAsks(classify, batch, a + b) == FindingAsks(classify, batch, a) + FindingAsks(classify, batch, b)
    decreases |b|
  {
    hide NameAsks, InBatch;
    if b == [] {
      assert a + b == a;
    } else {
      assert (a + b)[..|a + b| - 1] == a + b[..|b| - 1];
      FindingAsksConcat(classify, batch, a, b[..|b| - 1]);
    }
  }
}
