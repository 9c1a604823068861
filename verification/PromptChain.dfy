/** Inheriting a prompt id along the parent chain of a transcript, which may be cyclic. */
module PromptChain {

  datatype Entry = Entry(uuid: string, parent: string, prompt: string)

  datatype LinkInfo = LinkInfo(parent: string, prompt: string)

  type Index = map<string, LinkInfo>

  /** The last entry with a uuid wins; entries without one are not indexed. */
  function IndexOf(entries: seq<Entry>): Index {
    if entries == [] then map[]
    else
      var before, e := IndexOf(entries[..|entries| - 1]), entries[|entries| - 1];
      if e.uuid == "" then before else before[e.uuid := LinkInfo(e.parent, e.prompt)]
  }

  method BuildIndex(entries: seq<Entry>) returns (index: Index)
    ensures index == IndexOf(entries) && "" !in index
  {
    index := map[];
    for i := 0 to |entries|
      invariant index == IndexOf(entries[..i]) && "" !in index
    {
      assert entries[..i + 1][..i] == entries[..i];
      if entries[i].uuid != "" {
        index := index[entries[i].uuid := LinkInfo(entries[i].parent, entries[i].prompt)];
      }
    }
    assert entries[..|entries|] == entries;
  }

  // ---- the parent chain ----

  /** The k-th element of the chain that starts at uuid; empty once the chain has ended. */
  function ChainAt(index: Index, uuid: string, k: nat): string {
    if k == 0 then uuid
    else
      var u := ChainAt(index, uuid, k - 1);
      if u in index then index[u].parent else ""
  }

  /** An indexed element that carries no prompt id of its own. */
  predicate Silent(index: Index, u: string) { u != "" && u in index && index[u].prompt == "" }

  ghost predicate SilentFor(index: Index, uuid: string, k: nat) {
    forall j: nat :: j < k ==> Silent(index, ChainAt(index, uuid, j))
  }

  /** The k-th chain element is the first with a prompt id, and the chain has not ended before. */
  ghost predicate Nearest(index: Index, uuid: string, k: nat) {
    var u := ChainAt(index, uuid, k);
    SilentFor(index, uuid, k) && u != "" && u in index && index[u].prompt != ""
  }

  lemma {:induction false} ChainAdd(index: Index, uuid: string, a: nat, b: nat)
    ensures ChainAt(index, uuid, a + b) == ChainAt(index, ChainAt(index, uuid, a), b)
    decreases b
  {
    if b > 0 {
      ChainAdd(index, uuid, a, b - 1);
    }
  }

  /** v leads to u through silent elements, v included. */
  ghost predicate LeadsTo(index: Index, v: string, u: string) {
    exists k: nat :: k > 0 && ChainAt(index, v, k) == u && SilentFor(index, v, k)
  }

  /** A silent cycle stays silent for ever. */
  lemma {:induction false} CycleSilent(index: Index, u: string, k: nat, n: nat)
    requires k > 0 && ChainAt(index, u, k) == u && SilentFor(index, u, k)
    ensures Silent(index, ChainAt(index, u, n))
    decreases n
  {
    if n >= k {
      ChainAdd(index, u, k, n - k);
      CycleSilent(index, u, k, n - k);
    }
  }

  lemma NoneOnCycle(index: Index, u: string)
    requires LeadsTo(index, u, u)
    ensures forall k: nat :: !Nearest(index, u, k)
  {
    var k: nat :| k > 0 && ChainAt(index, u, k) == u && SilentFor(index, u, k);
    forall n: nat
      ensures !Nearest(index, u, n)
    {
      CycleSilent(index, u, k, n);
    }
  }

  lemma Extend(index: Index, v: string, u: string)
    requires Silent(index, u) && (v == u || LeadsTo(index, v, u))
    ensures LeadsTo(index, v, index[u].parent)
  {
    if v == u {
      assert ChainAt(index, u, 0) == u;
      assert ChainAt(index, u, 1) == index[u].parent;
      assert SilentFor(index, u, 1);
    } else {
      var k: nat :| k > 0 && ChainAt(index, v, k) == u && SilentFor(index, v, k);
      assert ChainAt(index, v, k + 1) == index[u].parent;
      forall j: nat | j < k + 1
        ensures Silent(index, ChainAt(index, v, j))
      {
        assert j < k || j == k;
      }
      assert SilentFor(index, v, k + 1);
    }
  }

  /** A silent element has the nearest prompt its parent has, one step further. */
  lemma NearestFromParent(index: Index, u: string, k: nat)
    requires Silent(index, u)
    ensures !Nearest(index, u, 0)
    ensures Nearest(index, u, k + 1) <==> Nearest(index, index[u].parent, k)
    ensures ChainAt(index, u, k + 1) == ChainAt(index, index[u].parent, k)
  {
    assert ChainAt(index, u, 0) == u && ChainAt(index, u, 1) == index[u].parent;
    forall j: nat
      ensures ChainAt(index, u, j + 1) == ChainAt(index, index[u].parent, j)
    {
      ChainAdd(index, u, 1, j);
    }
    if SilentFor(index, index[u].parent, k) {
      forall j: nat | j < k + 1
        ensures Silent(index, ChainAt(index, u, j))
      {
        assert j > 0 ==> ChainAt(index, u, (j - 1) + 1) == ChainAt(index, index[u].parent, j - 1);
      }
    }
    if SilentFor(index, u, k + 1) {
      forall j: nat | j < k
        ensures Silent(index, ChainAt(index, index[u].parent, j))
      {
        assert Silent(index, ChainAt(index, u, j + 1));
      }
    }
  }

  /** r is the prompt id of the nearest chain element that has one, or empty if none has. */
  ghost predicate IsNearestPrompt(index: Index, uuid: string, r: string) {
    && (r != "" ==> exists k: nat :: Nearest(index, uuid, k) && index[ChainAt(index, uuid, k)].prompt == r)
    && (r == "" ==> forall k: nat :: !Nearest(index, uuid, k))
  }

  lemma FromParent(index: Index, u: string, r: string)
    requires Silent(index, u) && IsNearestPrompt(index, index[u].parent, r)
    ensures IsNearestPrompt(index, u, r)
  {
    if r != "" {
      var k: nat :| Nearest(index, index[u].parent, k) && index[ChainAt(index, index[u].parent, k)].prompt == r;
      NearestFromParent(index, u, k);
    } else {
      forall k: nat
        ensures !Nearest(index, u, k)
      {
        NearestFromParent(index, u, if k == 0 then 0 else k - 1);
      }
    }
  }

  lemma OwnPrompt(index: Index, u: string)
    requires u != "" && u in index && index[u].prompt != ""
    ensures IsNearestPrompt(index, u, index[u].prompt)
  {
    assert ChainAt(index, u, 0) == u;
    assert Nearest(index, u, 0);
  }

  lemma NotIndexed(index: Index, u: string)
    requires u == "" || u !in index
    ensures IsNearestPrompt(index, u, "")
  {
    forall k: nat
      ensures !Nearest(index, u, k)
    {
      assert ChainAt(index, u, 0) == u;
      assert k > 0 && SilentFor(index, u, k) ==> Silent(index, ChainAt(index, u, 0));
    }
  }

  /** The closure resolvePromptID with the map it marks visited entries in. */
  class Resolver {
    const index: Index
    var visited: set<string>

    constructor (index: Index)
      ensures this.index == index && visited == {}
    {
      this.index, visited := index, {};
    }

    /** Terminates on every parent graph, cyclic or dangling; cutting cycles loses nothing. */
    method ResolvePromptID(uuid: string) returns (r: string)
      requires forall v :: v in visited ==> LeadsTo(index, v, uuid)
      modifies this`visited
      ensures IsNearestPrompt(index, uuid, r)
      decreases index.Keys - visited
    {
      if uuid == "" || uuid in visited {
        if uuid in visited {
          NoneOnCycle(index, uuid);
        } else {
          NotIndexed(index, uuid);
        }
        return "";
      }
      ghost var before := visited;
      visited := visited + {uuid};
      if uuid !in index {
        NotIndexed(index, uuid);
        return "";
      }
      var info := index[uuid];
      if info.prompt != "" {
        OwnPrompt(index, uuid);
        return info.prompt;
      }
      forall v | v in visited
        ensures LeadsTo(index, v, info.parent)
      {
        Extend(index, v, uuid);
      }
      assert uuid in index.Keys - before && uuid !in index.Keys - visited;
      r := ResolvePromptID(info.parent);
      FromParent(index, uuid, r);
    }
  }

  /** An entry's own prompt id, or the one it inherits. */
  method EntryPrompt(index: Index, e: Entry) returns (r: string)
    ensures e.prompt != "" ==> r == e.prompt
    ensures e.prompt == "" ==> IsNearestPrompt(index, e.uuid, r)
  {
    r := e.prompt;
    if r == "" {
      var resolver := new Resolver(index);
      r := resolver.ResolvePromptID(e.uuid);
    }
  }

  lemma NearestIsUnique(index: Index, uuid: string, j: nat, k: nat)
    requires Nearest(index, uuid, j) && Nearest(index, uuid, k)
    ensures j == k
  {
    assert j < k ==> Silent(index, ChainAt(index, uuid, j));
    assert k < j ==> Silent(index, ChainAt(index, uuid, k));
  }

  /** So the prompt id an entry inherits is determined by the index alone. */
  lemma PromptIsDetermined(index: Index, uuid: string, r: string, s: string)
    requires IsNearestPrompt(index, uuid, r) && IsNearestPrompt(index, uuid, s)
    ensures r == s
  {
    if r != "" && s != "" {
      var j: nat :| Nearest(index, uuid, j) && index[ChainAt(index, uuid, j)].prompt == r;
      var k: nat :| Nearest(index, uuid, k) && index[ChainAt(index, uuid, k)].prompt == s;
      NearestIsUnique(index, uuid, j, k);
    }
  }

  /** A uuid is indexed exactly when some entry carries it, with what the last such entry says. */
  lemma {:induction false} IndexIs(entries: seq<Entry>, u: string, info: LinkInfo)
    ensures u in IndexOf(entries) && IndexOf(entries)[u] == info
       <==> u != "" && exists i :: 0 <= i < |entries| && entries[i].uuid == u
                          && info == LinkInfo(entries[i].parent, entries[i].prompt)
                          && forall j :: i < j < |entries| ==> entries[j].uuid != u
  {
    if entries != [] {
      var before, e := entries[..|entries| - 1], entries[|entries| - 1];
      IndexIs(before, u, info);
      if e.uuid != u && u in IndexOf(before) && IndexOf(before)[u] == info {
        var i :| 0 <= i < |before| && before[i].uuid == u && info == LinkInfo(before[i].parent, before[i].prompt)
          && forall j :: i < j < |before| ==> before[j].uuid != u;
        assert entries[i].uuid == u && forall j :: i < j < |entries| ==> entries[j].uuid != u;
      }
    }
  }
}
