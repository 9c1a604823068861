/** Splitting a session's contents into chunks for the model: the greedy split is valid and no
    split into consecutive chunks within the same limits is shorter. */
module Chunking {
  import opened Text

  function Size(s: seq<string>): nat {
    if s == [] then 0 else ByteLen(s[0]) + Size(s[1..])
  }

  function Flatten<T>(chunks: seq<seq<T>>): seq<T> {
    if chunks == [] then [] else chunks[0] + Flatten(chunks[1..])
  }

  lemma {:induction false} SizeAppend(a: seq<string>, b: seq<string>)
    ensures Size(a + b) == Size(a) + Size(b)
  {
    if a == [] {
      assert a + b == b;
    } else {
      assert (a + b)[1..] == a[1..] + b;
      SizeAppend(a[1..], b);
    }
  }

  lemma {:induction false} FlattenAppend<T>(chunks: seq<seq<T>>, last: seq<T>)
    ensures Flatten(chunks + [last]) == Flatten(chunks) + last
  {
    if chunks == [] {
      assert [last][1..] == [];
    } else {
      assert (chunks + [last])[1..] == chunks[1..] + [last];
      FlattenAppend(chunks[1..], last);
      assert chunks[0] + (Flatten(chunks[1..]) + last) == chunks[0] + Flatten(chunks[1..]) + last;
    }
  }

  datatype Limits = Limits(maxCount: int, maxChars: int)

  /** Within the limits; an item too long for any chunk gets one of its own. */
  predicate Fits(chunk: seq<string>, lim: Limits) {
    0 < |chunk| <= lim.maxCount && (Size(chunk) <= lim.maxChars || |chunk| == 1)
  }

  predicate AllFit(chunks: seq<seq<string>>, lim: Limits) {
    chunks == [] || (Fits(chunks[0], lim) && AllFit(chunks[1..], lim))
  }

  /** Adding the next chunk's first item would have broken a limit. */
  predicate Full(chunk: seq<string>, next: string, lim: Limits) {
    |chunk| >= lim.maxCount || Size(chunk) + ByteLen(next) > lim.maxChars
  }

  /** Every chunk but the last is as long as it can be. */
  predicate Greedy(chunks: seq<seq<string>>, lim: Limits) {
    |chunks| <= 1 || (chunks[1] != [] && Full(chunks[0], chunks[1][0], lim) && Greedy(chunks[1..], lim))
  }

  lemma {:induction false} AppendChunk(chunks: seq<seq<string>>, last: seq<string>, lim: Limits)
    requires AllFit(chunks, lim) && Greedy(chunks, lim) && Fits(last, lim)
    requires chunks != [] ==> Full(chunks[|chunks| - 1], last[0], lim)
    ensures AllFit(chunks + [last], lim) && Greedy(chunks + [last], lim)
  {
    hide Fits, Full;
    var all := chunks + [last];
    if chunks == [] {
      assert all[1..] == [];
    } else {
      assert all[1..] == chunks[1..] + [last];
      assert chunks[|chunks| - 1] == if |chunks| == 1 then chunks[0] else chunks[1..][|chunks| - 2];
      AppendChunk(chunks[1..], last, lim);
      assert last != [] by { FitsNotEmpty(last, lim); }
    }
  }

  lemma FitsNotEmpty(chunk: seq<string>, lim: Limits)
    requires Fits(chunk, lim)
    ensures chunk != []
  {
  }

  lemma NoItemsNoChunks(chunks: seq<seq<string>>, lim: Limits)
    requires AllFit(chunks, lim) && Flatten(chunks) == []
    ensures chunks == []
  {
  }

  /** Corresponding chunks of the two outputs have equal lengths, so projects stay aligned. */
  ghost predicate Aligned(chunks: seq<seq<string>>, projects: seq<seq<string>>) {
    |chunks| == |projects| && forall i :: 0 <= i < |chunks| ==> |chunks[i]| == |projects[i]|
  }

  /** The project list may be shorter than the contents; items past its end carry none. */
  method ChunkContents(contents: seq<string>, projects: seq<string>, lim: Limits)
    returns (chunks: seq<seq<string>>, chunkProjects: seq<seq<string>>)
    ensures Flatten(chunks) == contents
    ensures lim.maxCount >= 1 ==> AllFit(chunks, lim) && Greedy(chunks, lim)
    ensures |chunkProjects| == |chunks|
    ensures Flatten(chunkProjects) == Taken(projects, |contents|)
    ensures |projects| >= |contents| ==> Aligned(chunks, chunkProjects)
  {
    hide AllFit, Greedy, Flatten, ByteLen;
    chunks, chunkProjects := [], [];
    var current: seq<string>, currentProjects: seq<string>, chars := [], [], 0;
    NoChunks(lim);
    for idx := 0 to |contents|
      invariant Flatten(chunks) + current == contents[..idx]
      invariant chars == Size(current) && (idx > 0 ==> current != [])
      invariant lim.maxCount >= 1 ==> Ready(chunks, current, lim)
      invariant |chunkProjects| == |chunks|
      invariant Flatten(chunkProjects) + currentProjects == Taken(projects, idx)
      invariant idx <= |projects| ==> Aligned(chunks, chunkProjects) && |currentProjects| == |current|
    {
      var c := contents[idx];
      assert contents[..idx + 1] == contents[..idx] + [c];
      TakenNext(projects, idx);
      ReadyNext(chunks, current, c, lim);
      SizeAppend(current, [c]);
      SizeOne(c);
      if |current| >= lim.maxCount || (chars + ByteLen(c) > lim.maxChars && |current| > 0) {
        FlattenAppend(chunks, current);
        FlattenAppend(chunkProjects, currentProjects);
        chunks, chunkProjects := chunks + [current], chunkProjects + [currentProjects];
        current, currentProjects, chars := [], [], 0;
        assert [] + [c] == [c];
      }
      current := current + [c];
      if idx < |projects| {
        currentProjects := currentProjects + [projects[idx]];
      }
      chars := chars + ByteLen(c);
    }
    assert contents[..|contents|] == contents;
    if |current| > 0 {
      FlattenAppend(chunks, current);
      FlattenAppend(chunkProjects, currentProjects);
      if lim.maxCount >= 1 {
        AppendChunk(chunks, current, lim);
      }
      chunks, chunkProjects := chunks + [current], chunkProjects + [currentProjects];
    }
  }

  function Taken(projects: seq<string>, n: nat): seq<string> {
    projects[..if n <= |projects| then n else |projects|]
  }

  lemma TakenNext(projects: seq<string>, n: nat)
    ensures Taken(projects, n + 1) == Taken(projects, n) + if n < |projects| then [projects[n]] else []
  {
  }

  /** The chunks so far are greedy, and so is the one being filled. */
  ghost predicate Ready(chunks: seq<seq<string>>, current: seq<string>, lim: Limits) {
    && AllFit(chunks, lim) && Greedy(chunks, lim)
    && (current != [] ==> Fits(current, lim))
    && (chunks != [] ==> current != [] && Full(chunks[|chunks| - 1], current[0], lim))
  }

  lemma NoChunks(lim: Limits)
    ensures Ready([], [], lim) && Flatten<string>([]) == [] && AllFit([], lim) && Greedy([], lim)
  {
  }

  lemma SizeOne(c: string)
    ensures Size([c]) == ByteLen(c)
  {
    assert [c][1..] == [];
  }

  lemma ReadyNext(chunks: seq<seq<string>>, current: seq<string>, c: string, lim: Limits)
    requires lim.maxCount >= 1 ==> Ready(chunks, current, lim)
    ensures lim.maxCount >= 1 ==>
      if |current| >= lim.maxCount || (Size(current) + ByteLen(c) > lim.maxChars && |current| > 0)
      then Ready(chunks + [current], [c], lim)
      else Ready(chunks, current + [c], lim)
  {
    hide AllFit, Greedy, ByteLen;
    SizeAppend(current, [c]);
    SizeOne(c);
    if lim.maxCount >= 1 && current != [] {
      AppendChunk(chunks, current, lim);
    }
  }

  /** A stretch of a chunk that fits, with its next neighbour, is never full. */
  lemma PartNotFull(chunk: seq<string>, lim: Limits, lo: nat, hi: nat)
    requires Fits(chunk, lim) && lo < hi < |chunk|
    ensures !Full(chunk[lo..hi], chunk[hi], lim)
  {
    hide ByteLen;
    var part, next, rest := chunk[lo..hi], [chunk[hi]], chunk[hi + 1..];
    assert chunk == chunk[..lo] + ((part + next) + rest);
    SizeAppend(chunk[..lo], (part + next) + rest);
    SizeAppend(part + next, rest);
    SizeAppend(part, next);
    SizeOne(chunk[hi]);
  }

  lemma FlattenTail<T>(chunks: seq<seq<T>>)
    requires chunks != []
    ensures |Flatten(chunks)| == |chunks[0]| + |Flatten(chunks[1..])|
    ensures Flatten(chunks)[..|chunks[0]|] == chunks[0]
    ensures Flatten(chunks)[|chunks[0]|..] == Flatten(chunks[1..])
  {
  }

  lemma DropTwice<T>(s: seq<T>, i: nat, j: nat)
    requires i + j <= |s|
    ensures s[i..][j..] == s[i + j..]
  {
  }

  /** A greedy chunk reaches at least to the end of the other split's chunk it starts in. */
  lemma FirstReaches(greedy: seq<seq<string>>, other: seq<seq<string>>, lim: Limits, d: nat)
    requires |greedy| > 1 && other != [] && d < |other[0]|
    requires Greedy(greedy, lim) && AllFit(other, lim) && AllFit(greedy, lim)
    requires d <= |Flatten(other)| && Flatten(greedy) == Flatten(other)[d..]
    ensures d + |greedy[0]| >= |other[0]|
  {
    hide Flatten, Size, ByteLen;
    var b, a, all := other[0], greedy[0], Flatten(greedy);
    var k := d + |a|;
    FlattenTail(other);
    FlattenTail(greedy);
    FlattenTail(greedy[1..]);
    if k < |b| {
      assert all[..|a|] == a && all[|a|] == greedy[1][0];
      assert forall i :: 0 <= i < |b| ==> Flatten(other)[..|b|][i] == b[i];
      assert b[d..k] == a && b[k] == greedy[1][0];
      assert a != [];
      PartNotFull(b, lim, d, k);
    }
  }

  /** A greedy split of a tail of the items needs no more chunks than any valid split of them all. */
  lemma {:induction false} GreedyIsShortest(greedy: seq<seq<string>>, other: seq<seq<string>>, lim: Limits, d: nat)
    requires AllFit(greedy, lim) && Greedy(greedy, lim) && AllFit(other, lim)
    requires d <= |Flatten(other)| && Flatten(greedy) == Flatten(other)[d..]
    ensures |greedy| <= |other|
    decreases |other|, |greedy|
  {
    hide Flatten, Fits, Full;
    if other == [] {
      assert Flatten<string>([]) == [] by { NoChunks(lim); }
      NoItemsNoChunks(greedy, lim);
    } else if greedy != [] {
      FlattenTail(other);
      FlattenTail(greedy);
      var b := other[0];
      if d >= |b| {
        DropTwice(Flatten(other), |b|, d - |b|);
        GreedyIsShortest(greedy, other[1..], lim, d - |b|);
      } else if |greedy| > 1 {
        FirstReaches(greedy, other, lim, d);
        var e := d + |greedy[0]| - |b|;
        DropTwice(Flatten(other), d, |greedy[0]|);
        DropTwice(Flatten(other), |b|, e);
        GreedyIsShortest(greedy[1..], other[1..], lim, e);
      }
    }
  }

  /** No split of the same contents into consecutive chunks within the limits has fewer chunks. */
  lemma ChunkingIsOptimal(greedy: seq<seq<string>>, other: seq<seq<string>>, lim: Limits)
    requires AllFit(greedy, lim) && Greedy(greedy, lim) && AllFit(other, lim)
    requires Flatten(greedy) == Flatten(other)
    ensures |greedy| <= |other|
  {
    assert Flatten(other)[0..] == Flatten(other);
    GreedyIsShortest(greedy, other, lim, 0);
  }
}
