/** Keyword search: the indexed prefilter must return what scoring the whole corpus would. */
module Search {
  import opened Lists
  import opened Text
  import opened Tables
  import opened Runs
  import opened Store

  datatype Query = Query(text: string, phase: Option<Phase>, scope: string, tags: seq<string>,
                         excluded: seq<string>)

  datatype SearchError = SqlSyntax

  // ---- splitting the query ----

  function ReplaceOr(s: string): string {
    if |s| >= 4 && s[..4] == " or " then "|" + ReplaceOr(s[4..])
    else if s == [] then []
    else [s[0]] + ReplaceOr(s[1..])
  }

  predicate IsDelimiter(c: char) { c == '|' || c == ' ' || c == '\t' || c == ',' || c == '\U{FF0C}' }

  /** strings.FieldsFunc: the maximal runs of other characters. */
  function Fields(s: string): seq<string> {
    if s == [] then []
    else
      var before, c := Fields(s[..|s| - 1]), s[|s| - 1];
      if IsDelimiter(c) then before
      else if |s| >= 2 && !IsDelimiter(s[|s| - 2]) && before != [] then
        before[..|before| - 1] + [before[|before| - 1] + [c]]
      else before + [[c]]
  }

  /** fold stands for the table of strings.ToLower, which knows more letters than SQL does. */
  function Keywords(fold: char -> char, text: string): seq<string> {
    Map(Fields(ReplaceOr(Fold(fold, text))), Trim)
  }

  // ---- corpus statistics ----

  function Pattern(kw: string): string { "%" + kw + "%" }

  function LikeContent(kw: string): string -> bool { (c: string) => Like(Pattern(kw), c) }

  function LikeLowered(kw: string): string -> bool { (c: string) => Like(Pattern(kw), Lower(c)) }

  function FtsContent(f: FtsRow): string { f.content }

  function RowContent(r: Row): string { r.content }

  /** The texts the two count probes scan: the index, and the memories table. */
  datatype Corpus = Corpus(indexed: seq<string>, stored: seq<string>)

  function CorpusOf(db: Db): Corpus { Corpus(Map(db.fts, FtsContent), Map(db.rows, RowContent)) }

  /** Patterns of three characters or more probe the index, shorter ones the table. */
  function Count(c: Corpus, kw: string): nat {
    if |kw| >= 3 then |Filter(c.indexed, LikeContent(kw))| else |Filter(c.stored, LikeLowered(kw))|
  }

  function Idf(ln: real -> real, total: nat, count: nat): real {
    if count == 0 then 0.0
    else
      var w := ln((if total == 0 then 1 else total) as real / count as real);
      if w < 0.1 then 0.1 else w
  }

  predicate ContainsCJK(s: string) {
    exists i :: 0 <= i < |s| && '\U{4E00}' <= s[i] <= '\U{9FFF}'
  }

  /** The longest prefix of at most n and at least two characters that some text matches. */
  function LongestPrefix(c: Corpus, kw: string, n: nat): string
    requires n <= |kw|
  {
    if n < 2 then "" else if Count(c, kw[..n]) > 0 then kw[..n] else LongestPrefix(c, kw, n - 1)
  }

  function Fallback(c: Corpus, kw: string): string {
    if kw == "" || !ContainsCJK(kw) then "" else LongestPrefix(c, kw, |kw| - 1)
  }

  /** How a search scores: Go's fold and logarithm, the corpus statistics and the keyword list. */
  datatype Scoring = Scoring(fold: char -> char, ln: real -> real, corpus: Corpus, keywords: seq<string>)

  function Weight(s: Scoring, kw: string): real { Idf(s.ln, |s.corpus.stored|, Count(s.corpus, kw)) }

  function FirstKeyword(keywords: seq<string>, i: nat): (r: int)
    requires i <= |keywords|
    ensures r == -1 || i <= r < |keywords|
    decreases |keywords| - i
  {
    if i == |keywords| then -1 else if Trim(keywords[i]) != "" then i else FirstKeyword(keywords, i + 1)
  }

  /** What the i-th keyword adds: its weight, or its prefix fallback's, doubled for the first. */
  function Term(s: Scoring, lowered: string, i: nat): real
    requires i < |s.keywords|
  {
    var kw := s.keywords[i];
    var prefix := Fallback(s.corpus, kw);
    var boost := if i == FirstKeyword(s.keywords, 0) then 2.0 else 1.0;
    if kw == "" || (Weight(s, kw) == 0.0 && prefix == "") then 0.0
    else if Contains(lowered, kw) then Weight(s, kw) * boost
    else if prefix != "" && Contains(lowered, prefix) then Weight(s, prefix) * boost
    else 0.0
  }

  function ScoreUpTo(s: Scoring, lowered: string, n: nat): real
    requires n <= |s.keywords|
  {
    if n == 0 then 0.0 else ScoreUpTo(s, lowered, n - 1) + Term(s, lowered, n - 1)
  }

  function Score(s: Scoring): Row -> real {
    (r: Row) => ScoreUpTo(s, Fold(s.fold, r.content), |s.keywords|)
  }

  // ---- filters ----

  predicate InScope(q: Query, r: Row) {
    (q.phase.Some? ==> r.phase == q.phase.value) && (q.scope != "" ==> r.scope == q.scope)
  }

  function Relevant(q: Query, s: Scoring): Row -> bool {
    (r: Row) => r.source !in q.excluded && Score(s)(r) > 0.0
  }

  function HasAllTags(db: Db, q: Query, fold: char -> char): Row -> bool {
    (r: Row) => forall t :: t in q.tags ==> exists u :: u in db.tags && u.0 == r.id && Fold(fold, u.1) == Fold(fold, t)
  }

  /** Keywords and fallbacks, empties and repeats dropped. */
  function Patterns(s: Scoring, n: nat): seq<string>
    requires n <= |s.keywords|
  {
    if n == 0 then []
    else
      var before := Patterns(s, n - 1);
      AddPattern(AddPattern(before, s.keywords[n - 1]), Fallback(s.corpus, s.keywords[n - 1]))
  }

  function AddPattern(patterns: seq<string>, p: string): seq<string> {
    if p == "" || p in patterns then patterns else patterns + [p]
  }

  predicate MatchesAny(patterns: seq<string>, content: string) {
    exists p :: p in patterns && Like(Pattern(p), content)
  }

  /** SELECT memory_id FROM memories_fts WHERE content LIKE ? OR ... */
  predicate Indexed(fts: seq<FtsRow>, patterns: seq<string>, id: Id) {
    exists f :: f in fts && f.id == id && MatchesAny(patterns, f.content)
  }

  function Candidate(db: Db, patterns: seq<string>, q: Query): Row -> bool {
    (r: Row) => Indexed(db.fts, patterns, r.id) && InScope(q, r)
  }

  // ---- the two forms of the search ----

  function Rank(listed: seq<Row>, db: Db, q: Query, s: Scoring): seq<Row> {
    Filter(StableSort(Filter(listed, Relevant(q, s)), Score(s)), HasAllTags(db, q, s.fold))
  }

  /** What SearchLike does: statistics and candidates from the index. */
  function Prefiltered(fold: char -> char, ln: real -> real, db: Db, q: Query): Result<seq<Row>, SearchError> {
    var s := Scoring(fold, ln, CorpusOf(db), Keywords(fold, q.text));
    var patterns := Patterns(s, |s.keywords|);
    if patterns == [] then Err(SqlSyntax)
    else Ok(Rank(Listing(Filter(db.rows, Candidate(db, patterns, q))), db, q, s))
  }

  function AllInScope(q: Query): Row -> bool { (r: Row) => InScope(q, r) }

  /** What it must equal: every memory listed and scored, all statistics from the memories. */
  function FullScan(fold: char -> char, ln: real -> real, db: Db, q: Query): seq<Row> {
    var texts := Map(db.rows, RowContent);
    var s := Scoring(fold, ln, Corpus(texts, texts), Keywords(fold, q.text));
    Rank(Filter(Listing(db.rows), AllInScope(q)), db, q, s)
  }

  // ---- the prefilter loses nothing ----

  lemma AddPatternHas(patterns: seq<string>, p: string)
    ensures p != "" ==> p in AddPattern(patterns, p)
    ensures forall k :: k in patterns ==> k in AddPattern(patterns, p)
  {
  }

  lemma {:induction false} PatternsCover(s: Scoring, n: nat, i: nat)
    requires i < n <= |s.keywords|
    ensures s.keywords[i] != "" ==> s.keywords[i] in Patterns(s, n)
    ensures Fallback(s.corpus, s.keywords[i]) != "" ==> Fallback(s.corpus, s.keywords[i]) in Patterns(s, n)
    decreases n
  {
    hide Fallback, AddPattern;
    var kw := s.keywords[n - 1];
    AddPatternHas(Patterns(s, n - 1), kw);
    AddPatternHas(AddPattern(Patterns(s, n - 1), kw), Fallback(s.corpus, kw));
    if i < n - 1 {
      PatternsCover(s, n - 1, i);
    }
  }

  /** Keyword i finds the folded text, itself or through its prefix fallback, with some weight. */
  predicate Finds(s: Scoring, lowered: string, i: nat)
    requires i < |s.keywords|
  {
    var kw, prefix := s.keywords[i], Fallback(s.corpus, s.keywords[i]);
    kw != "" && if Contains(lowered, kw) then Count(s.corpus, kw) > 0 else prefix != "" && Contains(lowered, prefix)
  }

  ghost predicate FoundBy(s: Scoring, lowered: string, n: nat)
    requires n <= |s.keywords|
  {
    exists i :: 0 <= i < n && Finds(s, lowered, i)
  }

  lemma WeightSign(s: Scoring, kw: string)
    ensures Weight(s, kw) >= 0.0 && (Weight(s, kw) > 0.0 <==> Count(s.corpus, kw) > 0)
  {
    hide Count;
  }

  lemma {:induction false} LongestPrefixCounts(c: Corpus, kw: string, n: nat)
    requires n <= |kw|
    ensures LongestPrefix(c, kw, n) != "" ==> Count(c, LongestPrefix(c, kw, n)) > 0
  {
    hide Count;
    if n >= 2 {
      LongestPrefixCounts(c, kw, n - 1);
    }
  }

  lemma FallbackCounts(c: Corpus, kw: string)
    ensures Fallback(c, kw) != "" ==> kw != "" && Count(c, Fallback(c, kw)) > 0
  {
    hide Count;
    if kw != "" {
      LongestPrefixCounts(c, kw, |kw| - 1);
    }
  }

  lemma TermSign(s: Scoring, lowered: string, i: nat)
    requires i < |s.keywords|
    ensures Term(s, lowered, i) >= 0.0 && (Term(s, lowered, i) > 0.0 <==> Finds(s, lowered, i))
  {
    hide Count, Contains, Fallback, Weight, FirstKeyword;
    var kw := s.keywords[i];
    WeightSign(s, kw);
    WeightSign(s, Fallback(s.corpus, kw));
    FallbackCounts(s.corpus, kw);
  }

  /** A text has a score exactly when some keyword finds it. */
  lemma {:induction false} ScoredIffFound(s: Scoring, lowered: string, n: nat)
    requires n <= |s.keywords|
    ensures ScoreUpTo(s, lowered, n) >= 0.0
    ensures ScoreUpTo(s, lowered, n) > 0.0 <==> FoundBy(s, lowered, n)
  {
    hide Term, Finds;
    if n > 0 {
      ScoredIffFound(s, lowered, n - 1);
      TermSign(s, lowered, n - 1);
    }
  }

  /** On texts that fold alike, whatever a keyword finds some pattern matches. */
  lemma FoundIsMatched(s: Scoring, content: string)
    requires FoldsAlike(s.fold, content) && FoundBy(s, Fold(s.fold, content), |s.keywords|)
    ensures MatchesAny(Patterns(s, |s.keywords|), content)
  {
    hide Fallback, Count, Patterns, Like, Contains, Fold, FoldsAlike;
    var lowered := Fold(s.fold, content);
    var i :| 0 <= i < |s.keywords| && Finds(s, lowered, i);
    PatternsCover(s, |s.keywords|, i);
    var found := if Contains(lowered, s.keywords[i]) then s.keywords[i] else Fallback(s.corpus, s.keywords[i]);
    ContainsImpliesLike(s.fold, content, found);
    assert found in Patterns(s, |s.keywords|) && Like(Pattern(found), content);
  }

  lemma SameContents(rows: seq<Row>)
    ensures Map(FtsOf(rows), FtsContent) == Map(rows, RowContent)
  {
    forall i | 0 <= i < |rows|
      ensures Map(FtsOf(rows), FtsContent)[i] == Map(rows, RowContent)[i]
    {
      assert FtsOf(rows)[i] == FtsOfRow(rows[i]);
      assert Map(FtsOf(rows), FtsContent)[i] == FtsContent(FtsOf(rows)[i]);
      assert Map(rows, RowContent)[i] == RowContent(rows[i]);
    }
  }

  lemma IndexedIsMatch(db: Db, patterns: seq<string>, r: Row)
    requires DistinctRows(db.rows) && db.fts == FtsOf(db.rows) && r in db.rows
    ensures Indexed(db.fts, patterns, r.id) <==> MatchesAny(patterns, r.content)
  {
    hide MatchesAny;
    var i :| 0 <= i < |db.rows| && db.rows[i] == r;
    assert db.fts[i] == FtsOfRow(r) && db.fts[i] in db.fts;
    if Indexed(db.fts, patterns, r.id) {
      var f :| f in db.fts && f.id == r.id && MatchesAny(patterns, f.content);
      var j :| 0 <= j < |db.fts| && db.fts[j] == f;
      assert f == FtsOfRow(db.rows[j]);
      assert i == j;
    }
  }

  function Both(p: Row -> bool, q: Row -> bool): Row -> bool { (r: Row) => p(r) && q(r) }

  /** Scored, not excluded, with all the tags. */
  function Wanted(db: Db, q: Query, s: Scoring): Row -> bool { Both(Relevant(q, s), HasAllTags(db, q, s.fold)) }

  /** Sorting may come last. */
  lemma RankIsSorted(listed: seq<Row>, db: Db, q: Query, s: Scoring)
    ensures Rank(listed, db, q, s) == StableSort(Filter(listed, Wanted(db, q, s)), Score(s))
  {
    FilterStableSort(Filter(listed, Relevant(q, s)), Score(s), HasAllTags(db, q, s.fold));
    FilterTwice(listed, Relevant(q, s), HasAllTags(db, q, s.fold), Wanted(db, q, s));
  }

  /** Some keyword finds the row's folded text, the row passes every filter, and yet no pattern of
      the candidate query matches its text as SQL reads it. */
  ghost predicate Slips(db: Db, q: Query, s: Scoring, r: Row) {
    && InScope(q, r) && r.source !in q.excluded && HasAllTags(db, q, s.fold)(r)
    && FoundBy(s, Fold(s.fold, r.content), |s.keywords|) && !MatchesAny(Patterns(s, |s.keywords|), r.content)
  }

  lemma WantedWithout(db: Db, q: Query, s: Scoring, r: Row)
    requires DistinctRows(db.rows) && db.fts == FtsOf(db.rows) && r in db.rows
    ensures var candidate := Candidate(db, Patterns(s, |s.keywords|), q);
      Both(AllInScope(q), Wanted(db, q, s))(r) && !Both(candidate, Wanted(db, q, s))(r) <==> Slips(db, q, s, r)
  {
    hide Patterns, Indexed, MatchesAny, InScope, HasAllTags, Fold;
    IndexedIsMatch(db, Patterns(s, |s.keywords|), r);
    ScoredIffFound(s, Fold(s.fold, r.content), |s.keywords|);
    assert AllInScope(q)(r) == InScope(q, r);
    assert Score(s)(r) == ScoreUpTo(s, Fold(s.fold, r.content), |s.keywords|);
    assert Relevant(q, s)(r) <==> r.source !in q.excluded && FoundBy(s, Fold(s.fold, r.content), |s.keywords|);
    assert Candidate(db, Patterns(s, |s.keywords|), q)(r)
      <==> MatchesAny(Patterns(s, |s.keywords|), r.content) && InScope(q, r);
    assert Wanted(db, q, s)(r) == (Relevant(q, s)(r) && HasAllTags(db, q, s.fold)(r));
  }

  /** The candidates rank as the whole corpus does exactly when no row slips through. */
  lemma SameRankIff(db: Db, q: Query, s: Scoring)
    requires DistinctRows(db.rows) && db.fts == FtsOf(db.rows)
    ensures Rank(Listing(Filter(db.rows, Candidate(db, Patterns(s, |s.keywords|), q))), db, q, s)
         == Rank(Filter(Listing(db.rows), AllInScope(q)), db, q, s)
       <==> forall r :: r in db.rows ==> !Slips(db, q, s, r)
  {
    hide Rank, Patterns, Indexed, Slips, Wanted, Candidate, AllInScope;
    var candidate, listing := Candidate(db, Patterns(s, |s.keywords|), q), Listing(db.rows);
    var inScope, wanted := AllInScope(q), Wanted(db, q, s);
    FilterStableSort(db.rows, CreatedAt, candidate);
    RankIsSorted(Filter(listing, candidate), db, q, s);
    RankIsSorted(Filter(listing, inScope), db, q, s);
    FilterTwice(listing, candidate, wanted, Both(candidate, wanted));
    FilterTwice(listing, inScope, wanted, Both(inScope, wanted));
    forall r | r in db.rows { WantedWithout(db, q, s, r); }
    forall r | r in db.rows { CandidateInScope(db, q, s, r); }
    var all, found := Filter(listing, Both(inScope, wanted)), Filter(listing, Both(candidate, wanted));
    if forall r :: r in db.rows ==> !Slips(db, q, s, r) {
      FilterAgree(listing, Both(candidate, wanted), Both(inScope, wanted));
    }
    if StableSort(found, Score(s)) == StableSort(all, Score(s)) {
      forall r | r in db.rows
        ensures !Slips(db, q, s, r)
      {
        assert r in StableSort(found, Score(s)) <==> r in found;
        assert r in StableSort(all, Score(s)) <==> r in all;
      }
    }
  }

  lemma CandidateInScope(db: Db, q: Query, s: Scoring, r: Row)
    ensures Candidate(db, Patterns(s, |s.keywords|), q)(r) ==> AllInScope(q)(r)
  {
  }

  /** For every query the prefiltered search returns exactly the sequence that scoring the whole
      corpus returns if and only if no row slips through; without any keyword it fails. */
  lemma PrefilterIsFullScanIff(fold: char -> char, ln: real -> real, db: Db, q: Query)
    requires DistinctRows(db.rows) && db.fts == FtsOf(db.rows)
    ensures (forall k :: k in Keywords(fold, q.text) ==> k == "") ==> Prefiltered(fold, ln, db, q) == Err(SqlSyntax)
    ensures (exists k :: k in Keywords(fold, q.text) && k != "") ==>
      (Prefiltered(fold, ln, db, q) == Ok(FullScan(fold, ln, db, q))
       <==> forall r :: r in db.rows ==> !Slips(db, q, Scoring(fold, ln, CorpusOf(db), Keywords(fold, q.text)), r))
  {
    hide Fallback, Rank, Slips, Keywords;
    SameContents(db.rows);
    var s := Scoring(fold, ln, CorpusOf(db), Keywords(fold, q.text));
    if exists k :: k in s.keywords && k != "" {
      var i :| 0 <= i < |s.keywords| && s.keywords[i] != "";
      PatternsCover(s, |s.keywords|, i);
      SameRankIff(db, q, s);
    } else {
      NoPatterns(s, |s.keywords|);
    }
  }

  /** Whenever the index mirrors the rows and each stored text folds alike in Go and in SQL, the
      prefiltered search loses nothing, for every query with a keyword. */
  lemma PrefilterIsFullScan(fold: char -> char, ln: real -> real, db: Db, q: Query)
    requires DistinctRows(db.rows) && db.fts == FtsOf(db.rows)
    requires forall r :: r in db.rows ==> FoldsAlike(fold, r.content)
    requires exists k :: k in Keywords(fold, q.text) && k != ""
    ensures Prefiltered(fold, ln, db, q) == Ok(FullScan(fold, ln, db, q))
  {
    hide Prefiltered, FullScan, Keywords, FoldsAlike, FoundBy, MatchesAny, Patterns;
    PrefilterIsFullScanIff(fold, ln, db, q);
    var s := Scoring(fold, ln, CorpusOf(db), Keywords(fold, q.text));
    forall r | r in db.rows
      ensures !Slips(db, q, s, r)
    {
      if FoundBy(s, Fold(s.fold, r.content), |s.keywords|) {
        FoundIsMatched(s, r.content);
      }
    }
  }

  lemma EmptyHasNoFallback(c: Corpus)
    ensures Fallback(c, "") == ""
  {
  }

  lemma {:induction false} NoPatterns(s: Scoring, n: nat)
    requires n <= |s.keywords| && forall k :: k in s.keywords ==> k == ""
    ensures Patterns(s, n) == []
  {
    hide Fallback;
    if n > 0 {
      NoPatterns(s, n - 1);
      assert s.keywords[n - 1] in s.keywords;
      EmptyHasNoFallback(s.corpus);
    }
  }

  /** So in every reachable state whose texts fold alike, for every query. */
  lemma SearchNeverMisses(x: Extractors, cmds: seq<Command>, fold: char -> char, ln: real -> real, q: Query)
    requires forall r :: r in Run(x, EMPTY_DB, cmds).rows ==> FoldsAlike(fold, r.content)
    requires exists k :: k in Keywords(fold, q.text) && k != ""
    ensures var db := Run(x, EMPTY_DB, cmds); Prefiltered(fold, ln, db, q) == Ok(FullScan(fold, ln, db, q))
  {
    hide Prefiltered, FullScan, Keywords, Step, FoldsAlike;
    ReachableKeeps(x, cmds);
    PrefilterIsFullScan(fold, ln, Run(x, EMPTY_DB, cmds), q);
  }

  /** Rarer keywords never weigh less, for any monotone logarithm. */
  lemma RarerWeighsMore(ln: real -> real, total: nat, rare: nat, common: nat)
    requires forall a: real, b: real :: a <= b ==> ln(a) <= ln(b)
    requires 1 <= rare <= common <= total
    ensures Idf(ln, total, rare) >= Idf(ln, total, common) >= 0.1
  {
    var t, r, c := total as real, rare as real, common as real;
    assert t / r >= t / c by {
      assert t / r * r == t && t / c * c == t;
      assert t / c * r <= t / c * c;
    }
  }

  // ---- the method ----

  datatype Scored = Scored(mem: Row, score: real)

  function Attach(s: Scoring): Row -> Scored { (r: Row) => Scored(r, Score(s)(r)) }

  function ScoreField(p: Scored): real { p.score }

  /** The fallback loop: ever shorter prefixes, the first that some text matches. */
  method FindFallback(c: Corpus, kw: string) returns (prefix: string)
    requires kw != ""
    ensures prefix == Fallback(c, kw)
  {
    if !ContainsCJK(kw) {
      return "";
    }
    var n := |kw| - 1;
    while n >= 2
      invariant 0 <= n < |kw| && LongestPrefix(c, kw, n) == LongestPrefix(c, kw, |kw| - 1)
    {
      if Count(c, kw[..n]) > 0 {
        return kw[..n];
      }
      n := n - 1;
    }
    prefix := "";
  }

  /** A lookup in a Go map: the zero value when the key is missing. */
  function Lookup<V>(m: map<string, V>, key: string, zero: V): V {
    if key in m then m[key] else zero
  }

  /** The weight maps agree with the corpus statistics on these keywords. */
  ghost predicate Weighed(s: Scoring, kws: seq<string>, kwWeight: map<string, real>,
                          prefixWeight: map<string, real>, prefixStr: map<string, string>)
  {
    && (forall kw :: kw in kwWeight ==> kwWeight[kw] == Weight(s, kw))
    && (forall kw :: kw in prefixStr ==> prefixStr[kw] == Fallback(s.corpus, kw) != "")
    && (forall kw :: kw in prefixStr ==> kw in prefixWeight && prefixWeight[kw] == Weight(s, prefixStr[kw]))
    && (forall kw :: kw in kws && kw != "" ==>
          (kw !in kwWeight ==> Weight(s, kw) == 0.0) && (kw !in prefixStr ==> Fallback(s.corpus, kw) == ""))
  }

  /** One keyword more, with its weight and fallback stored when it has them. */
  lemma WeighedStep(s: Scoring, kws: seq<string>, kw: string, kwWeight: map<string, real>,
                    prefixWeight: map<string, real>, prefixStr: map<string, string>)
    requires Weighed(s, kws, kwWeight, prefixWeight, prefixStr)
    ensures var sub := Fallback(s.corpus, kw);
      var kwWeight' := if kw != "" && Count(s.corpus, kw) > 0 then kwWeight[kw := Weight(s, kw)] else kwWeight;
      Weighed(s, kws + [kw], kwWeight',
              if sub != "" then prefixWeight[kw := Weight(s, sub)] else prefixWeight,
              if sub != "" then prefixStr[kw := sub] else prefixStr)
  {
    hide Fallback, Count, Idf;
    assert Count(s.corpus, kw) == 0 ==> Weight(s, kw) == 0.0 by { UnseenWeighsNothing(s, kw); }
    hide Weight;
  }

  lemma UnseenWeighsNothing(s: Scoring, kw: string)
    ensures Count(s.corpus, kw) == 0 ==> Weight(s, kw) == 0.0
  {
  }

  method WeighKeywords(s: Scoring)
    returns (kwWeight: map<string, real>, prefixWeight: map<string, real>, prefixStr: map<string, string>)
    ensures Weighed(s, s.keywords, kwWeight, prefixWeight, prefixStr)
  {
    hide Weighed, Count;
    kwWeight, prefixWeight, prefixStr := map[], map[], map[];
    var total := |s.corpus.stored|;
    NothingWeighed(s);
    for i := 0 to |s.keywords|
      invariant Weighed(s, s.keywords[..i], kwWeight, prefixWeight, prefixStr)
    {
      var kw := s.keywords[i];
      WeighedStep(s, s.keywords[..i], kw, kwWeight, prefixWeight, prefixStr);
      assert s.keywords[..i + 1] == s.keywords[..i] + [kw];
      if kw == "" {
        EmptyHasNoFallback(s.corpus);
        continue;
      }
      var cnt := Count(s.corpus, kw);
      if cnt > 0 {
        kwWeight := kwWeight[kw := Idf(s.ln, total, cnt)];
      }
      var sub := FindFallback(s.corpus, kw);
      if sub != "" {
        prefixWeight := prefixWeight[kw := Idf(s.ln, total, Count(s.corpus, sub))];
        prefixStr := prefixStr[kw := sub];
      }
    }
    assert s.keywords[..|s.keywords|] == s.keywords;
  }

  lemma NothingWeighed(s: Scoring)
    ensures Weighed(s, s.keywords[..0], map[], map[], map[])
  {
  }

  lemma EmptyNeverStored(s: Scoring, kws: seq<string>, kwWeight: map<string, real>,
                         prefixWeight: map<string, real>, prefixStr: map<string, string>, kw: string)
    requires Weighed(s, kws, kwWeight, prefixWeight, prefixStr) && kw in kws
    ensures Lookup(prefixStr, kw, "") == Fallback(s.corpus, kw)
    ensures kw != "" ==> Lookup(kwWeight, kw, 0.0) == Weight(s, kw)
    ensures Lookup(prefixStr, kw, "") != "" ==> Lookup(prefixWeight, kw, 0.0) == Weight(s, Fallback(s.corpus, kw))
  {
    hide Fallback, Weight;
    EmptyHasNoFallback(s.corpus);
  }

  method CollectPatterns(s: Scoring, kwWeight: map<string, real>, prefixWeight: map<string, real>,
                         prefixStr: map<string, string>) returns (patterns: seq<string>)
    requires Weighed(s, s.keywords, kwWeight, prefixWeight, prefixStr)
    ensures patterns == Patterns(s, |s.keywords|)
  {
    hide Fallback, Weighed;
    patterns := [];
    for i := 0 to |s.keywords|
      invariant patterns == Patterns(s, i)
    {
      var kw := s.keywords[i];
      EmptyNeverStored(s, s.keywords, kwWeight, prefixWeight, prefixStr, kw);
      patterns := AddPattern(patterns, kw);
      patterns := AddPattern(patterns, Lookup(prefixStr, kw, ""));
    }
  }

  method FindFirstKeyword(keywords: seq<string>) returns (first: int)
    ensures first == FirstKeyword(keywords, 0)
  {
    first := -1;
    for i := 0 to |keywords|
      invariant FirstKeyword(keywords, 0) == FirstKeyword(keywords, i)
    {
      if Trim(keywords[i]) != "" {
        return i;
      }
    }
  }

  /** The inner loop: one memory against every keyword. */
  method ScoreMemory(s: Scoring, content: string, kwWeight: map<string, real>, prefixWeight: map<string, real>,
                     prefixStr: map<string, string>, first: int) returns (score: real)
    requires Weighed(s, s.keywords, kwWeight, prefixWeight, prefixStr) && first == FirstKeyword(s.keywords, 0)
    ensures score == ScoreUpTo(s, Fold(s.fold, content), |s.keywords|)
  {
    hide Fallback, Weight, Weighed, Contains, Fold, FirstKeyword;
    var contentLower := Fold(s.fold, content);
    score := 0.0;
    for i := 0 to |s.keywords|
      invariant score == ScoreUpTo(s, contentLower, i)
    {
      var kw := s.keywords[i];
      EmptyNeverStored(s, s.keywords, kwWeight, prefixWeight, prefixStr, kw);
      if kw == "" {
        continue;
      }
      var prefix := Lookup(prefixStr, kw, "");
      if Lookup(kwWeight, kw, 0.0) == 0.0 && prefix == "" {
        continue;
      }
      var boost := 1.0;
      if i == first {
        boost := 2.0;
      }
      if Contains(contentLower, kw) {
        score := score + Lookup(kwWeight, kw, 0.0) * boost;
        continue;
      }
      if prefix != "" && Contains(contentLower, prefix) {
        score := score + Lookup(prefixWeight, kw, 0.0) * boost;
      }
    }
  }

  lemma ResultsStep(s: Scoring, q: Query, memories: seq<Row>, i: nat)
    requires i < |memories|
    ensures var mem, before := memories[i], Map(Filter(memories[..i], Relevant(q, s)), Attach(s));
      Map(Filter(memories[..i + 1], Relevant(q, s)), Attach(s))
      == if mem.source !in q.excluded && Score(s)(mem) > 0.0 then before + [Scored(mem, Score(s)(mem))] else before
  {
    var kept := Filter(memories[..i], Relevant(q, s));
    FilterStep(memories, i, Relevant(q, s));
    if Relevant(q, s)(memories[i]) {
      MapAppend(kept, memories[i], Attach(s));
    } else {
      assert kept + [] == kept;
    }
  }

  method ScoreAll(s: Scoring, q: Query, memories: seq<Row>, kwWeight: map<string, real>,
                  prefixWeight: map<string, real>, prefixStr: map<string, string>) returns (results: seq<Scored>)
    requires Weighed(s, s.keywords, kwWeight, prefixWeight, prefixStr)
    ensures results == Map(Filter(memories, Relevant(q, s)), Attach(s))
  {
    hide Weighed, Relevant, Attach, ScoreUpTo;
    var first := FindFirstKeyword(s.keywords);
    results := [];
    for i := 0 to |memories|
      invariant results == Map(Filter(memories[..i], Relevant(q, s)), Attach(s))
    {
      var mem := memories[i];
      ResultsStep(s, q, memories, i);
      if mem.source in q.excluded {
        continue;
      }
      var score := ScoreMemory(s, mem.content, kwWeight, prefixWeight, prefixStr, first);
      assert Score(s)(mem) == score;
      if score > 0.0 {
        results := results + [Scored(mem, score)];
      }
    }
    assert memories[..|memories|] == memories;
  }

  method KeepTagged(db: Db, q: Query, fold: char -> char, listed: seq<Row>) returns (out: seq<Row>)
    ensures out == Filter(listed, HasAllTags(db, q, fold))
  {
    out := [];
    for i := 0 to |listed|
      invariant out == Filter(listed[..i], HasAllTags(db, q, fold))
    {
      FilterStep(listed, i, HasAllTags(db, q, fold));
      if HasAllTags(db, q, fold)(listed[i]) {
        out := out + [listed[i]];
      }
    }
    assert listed[..|listed|] == listed;
  }

  function MemOf(p: Scored): Row { p.mem }

  lemma DetachAttached(rows: seq<Row>, s: Scoring)
    ensures Map(Map(rows, Attach(s)), MemOf) == rows
  {
    forall i | 0 <= i < |rows|
      ensures Map(Map(rows, Attach(s)), MemOf)[i] == rows[i]
    {
      assert Map(rows, Attach(s))[i] == Scored(rows[i], Score(s)(rows[i]));
      assert Map(Map(rows, Attach(s)), MemOf)[i] == MemOf(Map(rows, Attach(s))[i]);
    }
  }

  method SearchLike(store: SqliteStore, q: Query, fold: char -> char, ln: real -> real)
    returns (r: Result<seq<Row>, SearchError>)
    ensures r == Prefiltered(fold, ln, store.State(), q)
  {
    hide Patterns, Relevant, HasAllTags, Candidate, Weighed, CorpusOf, Keywords;
    var db := store.State();
    var s := Scoring(fold, ln, CorpusOf(db), Keywords(fold, q.text));
    var kwWeight, prefixWeight, prefixStr := WeighKeywords(s);
    var patterns := CollectPatterns(s, kwWeight, prefixWeight, prefixStr);
    if patterns == [] {
      return Err(SqlSyntax);  // WHERE with nothing after it
    }
    var memories := Listing(Filter(db.rows, Candidate(db, patterns, q)));
    var results := ScoreAll(s, q, memories, kwWeight, prefixWeight, prefixStr);
    ghost var kept := Filter(memories, Relevant(q, s));
    MapStableSort(kept, Attach(s), ScoreField, Score(s));
    results := StableSort(results, ScoreField);
    DetachAttached(StableSort(kept, Score(s)), s);
    var out := Map(results, MemOf);
    out := KeepTagged(db, q, fold, out);
    r := Ok(out);
  }
}
