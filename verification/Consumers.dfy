/** The consumption bitmask: one bit of consumed_mask per pipeline stage. */
module Consumers {

  datatype Consumer =
    | FactProcessor | ConsolidateLLM | EnrichTags | ProcessCmd | EntityExtract | SessionDigest | Unknown

  function ConsumerByName(name: string): Consumer {
    if name == "fact-processor" then FactProcessor
    else if name == "consolidate-llm" then ConsolidateLLM
    else if name == "enrich-tags" then EnrichTags
    else if name == "process-cmd" then ProcessCmd
    else if name == "entity-extract" then EntityExtract
    else if name == "session-digest" then SessionDigest
    else Unknown
  }

  /** The constant 1 << iota; an unknown consumer has no bit. */
  function Bit(c: Consumer): bv64 {
    match c
    case FactProcessor => 1
    case ConsolidateLLM => 2
    case EnrichTags => 4
    case ProcessCmd => 8
    case EntityExtract => 16
    case SessionDigest => 32
    case Unknown => 0
  }

  predicate IsConsumed(mask: bv64, c: Consumer) {
    c != Unknown && Test(mask, c)
  }

  /** UPDATE memories SET consumed_mask = consumed_mask | bit; an unknown consumer is a no-op. */
  function Marked(mask: bv64, c: Consumer): bv64 {
    if c == Unknown then mask else mask | Bit(c)
  }

  /** An interleaving of marks by any consumers is some sequence of single marks. */
  function MarkAll(mask: bv64, marks: seq<Consumer>): bv64 {
    if marks == [] then mask else Marked(MarkAll(mask, marks[..|marks| - 1]), marks[|marks| - 1])
  }

  /** The OR of the bits of all the marks. */
  function UnionBits(marks: seq<Consumer>): bv64 {
    if marks == [] then 0 else UnionBits(marks[..|marks| - 1]) | Bit(marks[|marks| - 1])
  }

  lemma OrZero(a: bv64)
    ensures a | 0 == a && 0 | a == a && a | a == a
  {
  }

  lemma OrShuffle(a: bv64, b: bv64, c: bv64)
    ensures (a | b) | c == a | (b | c) && (a | b) | c == (a | c) | b && a | b == b | a
  {
  }

  lemma MarkedIsOr(mask: bv64, c: Consumer)
    ensures Marked(mask, c) == mask | Bit(c)
  {
    if c == Unknown {
      OrZero(mask);
    }
  }

  /** Any interleaving of marks ends in the initial mask OR the union of the consumers' bits. */
  lemma {:induction false} MarksAccumulate(mask: bv64, marks: seq<Consumer>)
    ensures MarkAll(mask, marks) == mask | UnionBits(marks)
  {
    hide Marked, Bit;
    if marks == [] {
      OrZero(mask);
    } else {
      var before, last := marks[..|marks| - 1], marks[|marks| - 1];
      MarksAccumulate(mask, before);
      MarkedIsOr(MarkAll(mask, before), last);
      OrShuffle(mask, UnionBits(before), Bit(last));
    }
  }

  lemma {:induction false} UnionAbsorbs(marks: seq<Consumer>, c: Consumer)
    requires c in marks
    ensures UnionBits(marks) | Bit(c) == UnionBits(marks)
  {
    var before, last := marks[..|marks| - 1], marks[|marks| - 1];
    assert marks == before + [last];
    OrShuffle(UnionBits(before), Bit(last), Bit(c));
    if c == last {
      OrZero(Bit(c));
    } else {
      UnionAbsorbs(before, c);
    }
  }

  lemma {:induction false} UnionAbsorbsAll(a: seq<Consumer>, b: seq<Consumer>)
    requires forall c :: c in b ==> c in a
    ensures UnionBits(a) | UnionBits(b) == UnionBits(a)
  {
    if b == [] {
      OrZero(UnionBits(a));
    } else {
      var before, last := b[..|b| - 1], b[|b| - 1];
      UnionAbsorbsAll(a, before);
      UnionAbsorbs(a, last);
      OrShuffle(UnionBits(a), UnionBits(before), Bit(last));
    }
  }

  /** Order and repetition of the marks do not matter: only who marked does. */
  lemma MarksCommute(mask: bv64, a: seq<Consumer>, b: seq<Consumer>)
    requires forall c :: c in a <==> c in b
    ensures MarkAll(mask, a) == MarkAll(mask, b)
  {
    MarksAccumulate(mask, a);
    MarksAccumulate(mask, b);
    UnionAbsorbsAll(a, b);
    UnionAbsorbsAll(b, a);
    OrShuffle(UnionBits(a), UnionBits(b), 0);
  }

  lemma TestOfOr(a: bv64, b: bv64, bit: bv64)
    ensures (a | b) & bit != 0 <==> a & bit != 0 || b & bit != 0
  {
    assert (a | b) & bit == (a & bit) | (b & bit);
  }

  /** The bits of different consumers do not overlap. */
  lemma DistinctBits(c: Consumer, d: Consumer)
    ensures Bit(c) & Bit(d) != 0 <==> c == d != Unknown
  {
  }

  predicate Test(mask: bv64, c: Consumer) { mask & Bit(c) != 0 }

  lemma TestMarked(mask: bv64, c: Consumer, other: Consumer)
    ensures Test(Marked(mask, c), other) <==> Test(mask, other) || c == other != Unknown
  {
    hide Marked;
    MarkedIsOr(mask, c);
    DistinctBits(c, other);
    TestOfOr(mask, Bit(c), Bit(other));
  }

  lemma MarkedOne(mask: bv64, c: Consumer, other: Consumer)
    ensures IsConsumed(Marked(mask, c), other) <==> IsConsumed(mask, other) || c == other != Unknown
  {
    hide Marked, Test;
    TestMarked(mask, c, other);
  }

  /** The integer refines a set of consumers: after any interleaving a consumer reads as done
      exactly when it was done before or one of the marks was its own. */
  lemma {:induction false} MaskRefinesSet(mask: bv64, marks: seq<Consumer>, c: Consumer)
    ensures IsConsumed(MarkAll(mask, marks), c) <==> IsConsumed(mask, c) || (c in marks && c != Unknown)
  {
    if marks != [] {
      var before, last := marks[..|marks| - 1], marks[|marks| - 1];
      MaskRefinesSet(mask, before, c);
      MarkedOne(MarkAll(mask, before), last, c);
      assert marks == before + [last];
    }
  }
}
