/** What a search returns and in which order, said of the texts, the keywords and the counts. */
module SearchLaws {
  import opened Lists
  import opened Text
  import opened Tables
  import opened Runs
  import opened Promises
  import opened Search

  // ---- the keywords of a query ----

  /** The gaps and the fields between them, put together again. */
  function Woven(gaps: seq<string>, fields: seq<string>): string
    requires |gaps| == |fields| + 1
  {
    if fields == [] then gaps[0]
    else
      var n := |fields| - 1;
      Woven(gaps[..n + 1], fields[..n]) + fields[n] + gaps[n + 1]
  }

  ghost predicate Separates(gap: string) {
    forall i :: 0 <= i < |gap| ==> gap[i] in {'|', ' ', '\t', ',', '\U{FF0C}'}
  }

  ghost predicate Solid(field: string) {
    field != "" && forall i :: 0 <= i < |field| ==> field[i] !in {'|', ' ', '\t', ',', '\U{FF0C}'}
  }

  /** The fields are all that is left of s without the delimiters, and any two are apart. */
  ghost predicate SplitsInto(s: string, gaps: seq<string>, fields: seq<string>) {
    && |gaps| == |fields| + 1 && s == Woven(gaps, fields)
    && (forall i :: 0 <= i < |gaps| ==> Separates(gaps[i]) && (0 < i < |fields| ==> gaps[i] != ""))
    && (forall i :: 0 <= i < |fields| ==> Solid(fields[i]))
  }

  lemma WovenLast(gaps: seq<string>, fields: seq<string>, field: string, gap: string)
    requires |gaps| == |fields| + 1
    ensures Woven(gaps + [gap], fields + [field]) == Woven(gaps, fields) + field + gap
  {
    assert (gaps + [gap])[..|gaps|] == gaps && (fields + [field])[..|fields|] == fields;
  }

  lemma LongerGap(gaps: seq<string>, fields: seq<string>, c: char)
    requires |gaps| == |fields| + 1
    ensures Woven(gaps[..|fields|] + [gaps[|fields|] + [c]], fields) == Woven(gaps, fields) + [c]
  {
    var n := |fields|;
    var longer := gaps[..n] + [gaps[n] + [c]];
    if n > 0 {
      assert longer[..n] == gaps[..n];
      Assoc(Woven(gaps[..n], fields[..n - 1]) + fields[n - 1], gaps[n], [c]);
    }
  }

  lemma LongerField(gaps: seq<string>, fields: seq<string>, c: char)
    requires |gaps| == |fields| + 1 && fields != [] && gaps[|fields|] == ""
    ensures Woven(gaps, fields[..|fields| - 1] + [fields[|fields| - 1] + [c]]) == Woven(gaps, fields) + [c]
  {
    var n := |fields| - 1;
    var longer := fields[..n] + [fields[n] + [c]];
    assert longer[..n] == fields[..n];
    var before := Woven(gaps[..n + 1], fields[..n]);
    assert before + (fields[n] + [c]) + "" == before + fields[n] + "" + [c];
  }

  /** The last gap is empty exactly when s ends in a field. */
  lemma LastGap(s: string, gaps: seq<string>, fields: seq<string>)
    requires SplitsInto(s, gaps, fields) && s != ""
    ensures gaps[|fields|] == "" <==> !IsDelimiter(s[|s| - 1])
    ensures gaps[|fields|] == "" ==> fields != []
  {
    var gap := gaps[|fields|];
    if gap != "" {
      assert Separates(gap);
      assert s[|s| - 1] == gap[|gap| - 1];
    } else {
      var field := fields[|fields| - 1];
      assert Solid(field);
      assert s[|s| - 1] == field[|field| - 1];
    }
  }

  lemma GapGrows(s: string, gaps: seq<string>, fields: seq<string>, c: char) returns (more: seq<string>)
    requires SplitsInto(s, gaps, fields) && IsDelimiter(c)
    ensures SplitsInto(s + [c], more, fields)
  {
    more := gaps[..|fields|] + [gaps[|fields|] + [c]];
    hide Woven;
    LongerGap(gaps, fields, c);
    assert Separates(gaps[|fields|]);
  }

  lemma FieldGrows(s: string, gaps: seq<string>, fields: seq<string>, c: char)
    requires SplitsInto(s, gaps, fields) && s != "" && !IsDelimiter(s[|s| - 1]) && !IsDelimiter(c)
    ensures fields != [] && SplitsInto(s + [c], gaps, fields[..|fields| - 1] + [fields[|fields| - 1] + [c]])
  {
    LastGap(s, gaps, fields);
    hide Woven;
    LongerField(gaps, fields, c);
    assert Solid(fields[|fields| - 1]);
  }

  lemma FieldStarts(s: string, gaps: seq<string>, fields: seq<string>, c: char)
    requires SplitsInto(s, gaps, fields) && (s != "" ==> IsDelimiter(s[|s| - 1])) && !IsDelimiter(c)
    ensures SplitsInto(s + [c], gaps + [""], fields + [[c]])
  {
    if s != "" {
      LastGap(s, gaps, fields);
    } else {
      NoFields(gaps, fields);
    }
    hide Woven;
    WovenLast(gaps, fields, [c], "");
    assert s + [c] + "" == s + [c];
  }

  lemma NoFields(gaps: seq<string>, fields: seq<string>)
    requires SplitsInto("", gaps, fields)
    ensures fields == []
  {
    WovenHolds(gaps, fields);
  }

  lemma WovenHolds(gaps: seq<string>, fields: seq<string>)
    requires |gaps| == |fields| + 1
    ensures fields != [] ==> |Woven(gaps, fields)| >= |fields[|fields| - 1]|
  {
  }

  lemma FieldsNext(s: string, c: char)
    ensures var before := Fields(s);
      Fields(s + [c])
      == if IsDelimiter(c) then before
         else if s != [] && !IsDelimiter(s[|s| - 1]) && before != [] then
           before[..|before| - 1] + [before[|before| - 1] + [c]]
         else before + [[c]]
  {
    assert (s + [c])[..|s|] == s;
  }

  /** Fields cuts at the delimiters and nowhere else, and keeps every other character. */
  lemma {:induction false} FieldsSplit(s: string) returns (gaps: seq<string>)
    ensures SplitsInto(s, gaps, Fields(s))
  {
    if s == [] {
      gaps := [""];
    } else {
      var rest, c := s[..|s| - 1], s[|s| - 1];
      assert s == rest + [c];
      gaps := FieldsSplit(rest);
      FieldsNext(rest, c);
      hide SplitsInto, Woven, Fields, IsDelimiter;
      if IsDelimiter(c) {
        gaps := GapGrows(rest, gaps, Fields(rest), c);
      } else if rest != [] && !IsDelimiter(rest[|rest| - 1]) {
        FieldGrows(rest, gaps, Fields(rest), c);
      } else {
        FieldStarts(rest, gaps, Fields(rest), c);
        gaps := gaps + [""];
      }
    }
  }

  /** Without " or " nothing is replaced. */
  lemma {:induction false} NothingReplaced(s: string)
    requires forall i :: 0 <= i < |s| ==> !At(s, i, " or ")
    ensures ReplaceOr(s) == s
  {
    if s != [] {
      assert !At(s, 0, " or ");
      forall i | 0 <= i < |s[1..]|
        ensures !At(s[1..], i, " or ")
      {
        assert !At(s, i + 1, " or ");
      }
      NothingReplaced(s[1..]);
    }
  }

  /** The first " or " becomes a bar, and so on behind it. */
  lemma {:induction false} FirstReplaced(a: string, b: string)
    requires forall i :: 0 <= i < |a| ==> !At(a + " or " + b, i, " or ")
    ensures ReplaceOr(a + " or " + b) == a + "|" + ReplaceOr(b)
  {
    var s := a + " or " + b;
    if a == [] {
      assert s[..4] == " or " && s[4..] == b;
    } else {
      assert !At(s, 0, " or ");
      assert s[1..] == a[1..] + " or " + b;
      forall i | 0 <= i < |a[1..]|
        ensures !At(a[1..] + " or " + b, i, " or ")
      {
        assert !At(s, i + 1, " or ");
      }
      FirstReplaced(a[1..], b);
      assert [s[0]] + (a[1..] + "|" + ReplaceOr(b)) == a + "|" + ReplaceOr(b);
    }
  }

  /** The keywords are the fields of the folded query after that replacement, trimmed. */
  lemma KeywordsAre(fold: char -> char, text: string) returns (gaps: seq<string>, fields: seq<string>)
    ensures SplitsInto(ReplaceOr(Fold(fold, text)), gaps, fields)
    ensures var keywords := Keywords(fold, text);
      |keywords| == |fields| && forall i :: 0 <= i < |fields| ==> keywords[i] == Trim(fields[i])
  {
    hide Fields, ReplaceOr, Trim;
    fields := Fields(ReplaceOr(Fold(fold, text)));
    gaps := FieldsSplit(ReplaceOr(Fold(fold, text)));
  }

  // ---- counts, weights and fallbacks ----

  /** The rows whose text contains the string, as SQL reads both. */
  ghost function Hits(rows: seq<Row>, kw: string): set<nat> {
    set i: nat | i < |rows| && Like("%" + kw + "%", rows[i].content)
  }

  lemma TextsHit(rows: seq<Row>, kw: string)
    ensures PositionsWhere(Map(rows, RowContent), LikeContent(kw)) == Hits(rows, kw)
  {
    hide Like;
    forall i: nat | i < |rows|
      ensures Map(rows, RowContent)[i] == rows[i].content
    {
      assert Map(rows, RowContent)[i] == RowContent(rows[i]);
    }
    assert Pattern(kw) == "%" + kw + "%";
  }

  /** Both probes count those rows. */
  lemma CountIsHits(db: Db, kw: string)
    requires db.fts == FtsOf(db.rows)
    ensures Count(CorpusOf(db), kw) == |Hits(db.rows, kw)|
  {
    hide Like, Filter, PositionsWhere, Hits;
    var texts := Map(db.rows, RowContent);
    SameContents(db.rows);
    TextsHit(db.rows, kw);
    hide Map, FtsOf;
    forall c: string { LikeIgnoresCase(Pattern(kw), c); }
    FilterAgree(texts, LikeContent(kw), LikeLowered(kw));
    FilterPositions(texts, LikeContent(kw));
  }

  /** The weight of a keyword that some text contains is the logarithm of its rarity, but at least 0.1. */
  lemma WeightIsFloored(ln: real -> real, total: nat, count: nat)
    requires 1 <= count <= total
    ensures var w, rarity := Idf(ln, total, count), ln(total as real / count as real);
      w >= 0.1 && w >= rarity && (w == 0.1 || w == rarity)
  {
  }

  lemma {:induction false} LongestIs(c: Corpus, kw: string, n: nat)
    requires n <= |kw|
    ensures var r := LongestPrefix(c, kw, n);
      && (r == "" ==> forall k :: 2 <= k <= n ==> Count(c, kw[..k]) == 0)
      && (r != "" ==> 2 <= |r| <= n && r == kw[..|r|] && Count(c, r) > 0
                      && forall k :: |r| < k <= n ==> Count(c, kw[..k]) == 0)
  {
    hide Count;
    if n >= 2 && Count(c, kw[..n]) == 0 {
      LongestIs(c, kw, n - 1);
    }
  }

  /** Only a keyword with a Chinese character has a fallback: its longest proper prefix of at least
      two characters that some text contains. */
  lemma FallbackIs(c: Corpus, kw: string)
    ensures var r := Fallback(c, kw);
      && (r != "" ==> && (exists i :: 0 <= i < |kw| && '\U{4E00}' <= kw[i] <= '\U{9FFF}')
                      && 2 <= |r| < |kw| && r == kw[..|r|] && Count(c, r) > 0
                      && forall k :: |r| < k < |kw| ==> Count(c, kw[..k]) == 0)
      && (r == "" && (exists i :: 0 <= i < |kw| && '\U{4E00}' <= kw[i] <= '\U{9FFF}') ==>
            forall k :: 2 <= k < |kw| ==> Count(c, kw[..k]) == 0)
  {
    hide Count, LongestPrefix;
    if kw != "" {
      LongestIs(c, kw, |kw| - 1);
    }
  }

  // ---- what is found ----

  function ScoringOf(fold: char -> char, ln: real -> real, db: Db, q: Query): Scoring {
    Scoring(fold, ln, CorpusOf(db), Keywords(fold, q.text))
  }

  /** Keyword i finds the row. */
  predicate Found(s: Scoring, r: Row, i: nat)
    requires i < |s.keywords|
  {
    Finds(s, Fold(s.fold, r.content), i)
  }

  /** The string through which it does: itself, or else its fallback. */
  function Via(s: Scoring, r: Row, i: nat): string
    requires i < |s.keywords|
  {
    if Contains(Fold(s.fold, r.content), s.keywords[i]) then s.keywords[i] else Fallback(s.corpus, s.keywords[i])
  }

  /** The row is in the phase and scope, of no excluded source, and carries every tag up to case. */
  ghost predicate Passes(db: Db, q: Query, fold: char -> char, r: Row) {
    && (q.phase.Some? ==> r.phase == q.phase.value) && (q.scope != "" ==> r.scope == q.scope)
    && r.source !in q.excluded
    && forall t :: t in q.tags ==> exists u :: (r.id, u) in db.tags && Fold(fold, u) == Fold(fold, t)
  }

  lemma TaggedIs(db: Db, q: Query, fold: char -> char, r: Row)
    ensures HasAllTags(db, q, fold)(r)
       <==> forall t :: t in q.tags ==> exists u :: (r.id, u) in db.tags && Fold(fold, u) == Fold(fold, t)
  {
    hide Fold;
    forall u: (Id, string)
      ensures u == (u.0, u.1)
    {
    }
    if HasAllTags(db, q, fold)(r) {
      forall t | t in q.tags
        ensures exists u :: (r.id, u) in db.tags && Fold(fold, u) == Fold(fold, t)
      {
        var u :| u in db.tags && u.0 == r.id && Fold(fold, u.1) == Fold(fold, t);
        assert (r.id, u.1) in db.tags;
      }
    }
    if forall t :: t in q.tags ==> exists u :: (r.id, u) in db.tags && Fold(fold, u) == Fold(fold, t) {
      forall t | t in q.tags
        ensures exists u :: u in db.tags && u.0 == r.id && Fold(fold, u.1) == Fold(fold, t)
      {
        var u :| (r.id, u) in db.tags && Fold(fold, u) == Fold(fold, t);
        assert (r.id, u).0 == r.id && (r.id, u).1 == u;
      }
    }
  }

  lemma WantedIs(db: Db, q: Query, s: Scoring, r: Row)
    ensures Wanted(db, q, s)(r) && InScope(q, r)
       <==> Passes(db, q, s.fold, r) && exists i :: 0 <= i < |s.keywords| && Found(s, r, i)
  {
    hide HasAllTags, Fold, Finds, ScoreUpTo;
    TaggedIs(db, q, s.fold, r);
    ScoredIffFound(s, Fold(s.fold, r.content), |s.keywords|);
    assert Score(s)(r) == ScoreUpTo(s, Fold(s.fold, r.content), |s.keywords|);
    assert Relevant(q, s)(r) == (r.source !in q.excluded && Score(s)(r) > 0.0);
    assert Wanted(db, q, s)(r) == (Relevant(q, s)(r) && HasAllTags(db, q, s.fold)(r));
    if i :| 0 <= i < |s.keywords| && Found(s, r, i) {
      assert Finds(s, Fold(s.fold, r.content), i);
    }
    if i :| 0 <= i < |s.keywords| && Finds(s, Fold(s.fold, r.content), i) {
      assert Found(s, r, i);
    }
  }

  /** The search returns, once each, exactly the rows that pass the filters and that some keyword
      finds, if all texts fold alike in Go and in SQL. */
  lemma SearchFinds(fold: char -> char, ln: real -> real, db: Db, q: Query, r: Row)
    requires DistinctRows(db.rows) && db.fts == FtsOf(db.rows)
    requires forall s :: s in db.rows ==> FoldsAlike(fold, s.content)
    requires exists k :: k in Keywords(fold, q.text) && k != ""
    ensures var (s, out) := (ScoringOf(fold, ln, db, q), Prefiltered(fold, ln, db, q));
      out.Ok? && NoRepeats(out.value)
      && (r in out.value <==>
            r in db.rows && Passes(db, q, fold, r) && exists i :: 0 <= i < |s.keywords| && Found(s, r, i))
  {
    hide Prefiltered, FullScan, Passes, Found, Wanted, InScope, Keywords, Rank, FoldsAlike;
    PrefilterIsFullScan(fold, ln, db, q);
    var s := ScoringOf(fold, ln, db, q);
    FullScanIs(fold, ln, db, q);
    var listed := Filter(Listing(db.rows), AllInScope(q));
    RankIsSorted(listed, db, q, s);
    WantedIs(db, q, s, r);
    assert AllInScope(q)(r) == InScope(q, r);
    RowsApart(db.rows);
    SortNoRepeats(db.rows, CreatedAt);
    FilterNoRepeats(Listing(db.rows), AllInScope(q));
    FilterNoRepeats(listed, Wanted(db, q, s));
    SortNoRepeats(Filter(listed, Wanted(db, q, s)), Score(s));
  }

  lemma RowsApart(rows: seq<Row>)
    requires DistinctRows(rows)
    ensures NoRepeats(rows)
  {
  }

  lemma FullScanIs(fold: char -> char, ln: real -> real, db: Db, q: Query)
    requires db.fts == FtsOf(db.rows)
    ensures FullScan(fold, ln, db, q)
         == Rank(Filter(Listing(db.rows), AllInScope(q)), db, q, ScoringOf(fold, ln, db, q))
  {
    SameContents(db.rows);
  }

  // ---- in which order ----

  /** The first keyword that is not empty. */
  ghost predicate IsFirst(keywords: seq<string>, i: nat) {
    i < |keywords| && keywords[i] != "" && forall j :: 0 <= j < i ==> keywords[j] == ""
  }

  /** Keyword i adds what the string weighs through which it finds the row, twice that if it is the
      first keyword. */
  ghost function Worth(db: Db, s: Scoring, r: Row, i: nat): real
    requires i < |s.keywords|
  {
    Idf(s.ln, |db.rows|, |Hits(db.rows, Via(s, r, i))|) * if IsFirst(s.keywords, i) then 2.0 else 1.0
  }

  lemma {:induction false} FirstFrom(keywords: seq<string>, n: nat, i: nat)
    requires n <= i < |keywords| && forall k :: k in keywords ==> Trim(k) == k
    ensures FirstKeyword(keywords, n) == i <==> keywords[i] != "" && forall j :: n <= j < i ==> keywords[j] == ""
    decreases |keywords| - n
  {
    assert keywords[n] in keywords;
    if n < i {
      FirstFrom(keywords, n + 1, i);
    }
  }

  lemma TrimmedKeywords(fold: char -> char, text: string)
    ensures forall k :: k in Keywords(fold, text) ==> Trim(k) == k
  {
    hide Fields, ReplaceOr;
    var fields := Fields(ReplaceOr(Fold(fold, text)));
    forall k | k in Keywords(fold, text)
      ensures Trim(k) == k
    {
      var i :| 0 <= i < |fields| && Keywords(fold, text)[i] == k;
      assert k == Trim(fields[i]);
    }
  }

  lemma TermWorth(fold: char -> char, ln: real -> real, db: Db, q: Query, r: Row, i: nat)
    requires db.fts == FtsOf(db.rows) && i < |Keywords(fold, q.text)|
    ensures var s := ScoringOf(fold, ln, db, q);
      && Term(s, Fold(fold, r.content), i) == (if Found(s, r, i) then Worth(db, s, r, i) else 0.0)
      && (Found(s, r, i) ==> Worth(db, s, r, i) >= 0.1 && Hits(db.rows, Via(s, r, i)) != {})
  {
    var s := ScoringOf(fold, ln, db, q);
    hide Keywords, Fold, Contains, Fallback, Count, Hits, CorpusOf;
    CountIsHits(db, s.keywords[i]);
    CountIsHits(db, Fallback(s.corpus, s.keywords[i]));
    FallbackCounts(s.corpus, s.keywords[i]);
    TrimmedKeywords(fold, q.text);
    FirstFrom(s.keywords, 0, i);
    StoredTexts(db);
    hide FirstKeyword, IsFirst;
    assert FirstKeyword(s.keywords, 0) == i <==> IsFirst(s.keywords, i) by { FirstIs(s.keywords, i); }
  }

  lemma FirstIs(keywords: seq<string>, i: nat)
    requires i < |keywords| && forall k :: k in keywords ==> Trim(k) == k
    ensures FirstKeyword(keywords, 0) == i <==> IsFirst(keywords, i)
  {
    FirstFrom(keywords, 0, i);
  }

  lemma StoredTexts(db: Db)
    ensures |CorpusOf(db).stored| == |db.rows|
  {
  }

  /** The order of the result: by score, then as listed. */
  lemma RankOrder(fold: char -> char, ln: real -> real, db: Db, q: Query, a: Row, b: Row)
    requires DistinctRows(db.rows) && Prefiltered(fold, ln, db, q).Ok?
    ensures var (s, out) := (ScoringOf(fold, ln, db, q), Prefiltered(fold, ln, db, q).value);
      Precedes(out, a, b)
      <==> a in out && b in out
           && (Score(s)(a) > Score(s)(b) || (Score(s)(a) == Score(s)(b) && Sooner(db.rows, a, b)))
  {
    hide Score, Relevant, Wanted, Candidate, Rank, DistinctRows, Precedes;
    var s := ScoringOf(fold, ln, db, q);
    var candidate, wanted := Candidate(db, Patterns(s, |s.keywords|), q), Wanted(db, q, s);
    var rows := Filter(db.rows, candidate);
    var kept := Filter(Listing(rows), wanted);
    RankIsSorted(Listing(rows), db, q, s);
    RowsApart(db.rows);
    FilterNoRepeats(db.rows, candidate);
    ListingNoRepeats(rows);
    FilterNoRepeats(Listing(rows), wanted);
    hide Filter, StableSort;
    StableOrder(kept, Score(s), a, b);
    FilterOrder(Listing(rows), wanted, a, b);
    ListingOrder(rows, a, b);
    FilterOrder(db.rows, candidate, a, b);
    PrefilteredIs(fold, ln, db, q);
  }

  lemma PrefilteredIs(fold: char -> char, ln: real -> real, db: Db, q: Query)
    requires Prefiltered(fold, ln, db, q).Ok?
    ensures var s := ScoringOf(fold, ln, db, q);
      Prefiltered(fold, ln, db, q).value
      == Rank(Listing(Filter(db.rows, Candidate(db, Patterns(s, |s.keywords|), q))), db, q, s)
  {
  }

  /** What the first n keywords that find the row are worth together. */
  ghost function Total(db: Db, s: Scoring, r: Row, n: nat): real
    requires n <= |s.keywords|
  {
    if n == 0 then 0.0 else Total(db, s, r, n - 1) + if Found(s, r, n - 1) then Worth(db, s, r, n - 1) else 0.0
  }

  lemma {:induction false} ScoreIsTotal(fold: char -> char, ln: real -> real, db: Db, q: Query, r: Row, n: nat)
    requires db.fts == FtsOf(db.rows) && n <= |Keywords(fold, q.text)|
    ensures var s := ScoringOf(fold, ln, db, q);
      ScoreUpTo(s, Fold(fold, r.content), n) == Total(db, s, r, n)
  {
    hide Term, Found, Worth, Keywords, Fold, CorpusOf;
    if n > 0 {
      ScoreIsTotal(fold, ln, db, q, r, n - 1);
      TermWorth(fold, ln, db, q, r, n - 1);
    }
  }

  /** a stands before b in the result of the search. */
  ghost predicate Outranks(fold: char -> char, ln: real -> real, db: Db, q: Query, a: Row, b: Row) {
    var out := Prefiltered(fold, ln, db, q);
    out.Ok? && Precedes(out.value, a, b)
  }

  ghost predicate Returned(fold: char -> char, ln: real -> real, db: Db, q: Query, r: Row) {
    var out := Prefiltered(fold, ln, db, q);
    out.Ok? && r in out.value
  }

  /** Of two rows that are returned the one with the higher total comes first, and of equals the one
      listed first. */
  lemma OrderIs(fold: char -> char, ln: real -> real, db: Db, q: Query, a: Row, b: Row)
    requires DistinctRows(db.rows) && db.fts == FtsOf(db.rows)
    requires Returned(fold, ln, db, q, a) && Returned(fold, ln, db, q, b)
    ensures var s := ScoringOf(fold, ln, db, q); var n := |s.keywords|;
      Outranks(fold, ln, db, q, a, b)
      <==> Total(db, s, a, n) > Total(db, s, b, n)
           || (Total(db, s, a, n) == Total(db, s, b, n) && Sooner(db.rows, a, b))
  {
    hide Prefiltered, Keywords, Fold, CorpusOf, ScoreUpTo, Total, Sooner;
    var s := ScoringOf(fold, ln, db, q);
    RankOrder(fold, ln, db, q, a, b);
    ScoreIsTotal(fold, ln, db, q, a, |s.keywords|);
    ScoreIsTotal(fold, ln, db, q, b, |s.keywords|);
    assert Score(s)(a) == ScoreUpTo(s, Fold(fold, a.content), |s.keywords|);
    assert Score(s)(b) == ScoreUpTo(s, Fold(fold, b.content), |s.keywords|);
  }

  /** Keyword i finds the row and no other one does. */
  ghost predicate OnlyBy(s: Scoring, r: Row, i: nat) {
    i < |s.keywords| && forall j :: 0 <= j < |s.keywords| ==> (Found(s, r, j) <==> j == i)
  }

  lemma {:induction false} OnlyTotal(db: Db, s: Scoring, r: Row, i: nat, n: nat)
    requires OnlyBy(s, r, i) && n <= |s.keywords|
    ensures Total(db, s, r, n) == if i < n then Worth(db, s, r, i) else 0.0
  {
    hide Worth, Found;
    if n > 0 {
      OnlyTotal(db, s, r, i, n - 1);
    }
  }

  ghost predicate Monotone(ln: real -> real) { forall x: real, y: real :: x <= y ==> ln(x) <= ln(y) }

  /** Of two rows, one found by the first keyword alone and one by another keyword alone that is no
      rarer, the first comes first, for any monotone logarithm. */
  lemma FirstKeywordWins(fold: char -> char, ln: real -> real, db: Db, q: Query, a: Row, b: Row, f: nat, g: nat)
    requires DistinctRows(db.rows) && db.fts == FtsOf(db.rows)
    requires Monotone(ln)
    requires Returned(fold, ln, db, q, a) && Returned(fold, ln, db, q, b)
    requires var s := ScoringOf(fold, ln, db, q);
      && OnlyBy(s, a, f) && OnlyBy(s, b, g) && IsFirst(s.keywords, f) && f != g
      && |Hits(db.rows, Via(s, a, f))| <= |Hits(db.rows, Via(s, b, g))|
    ensures Outranks(fold, ln, db, q, a, b)
  {
    hide Keywords, CorpusOf, Returned, Outranks, Hits, Sooner, Idf, Via;
    var s := ScoringOf(fold, ln, db, q);
    OrderIs(fold, ln, db, q, a, b);
    OnlyTotal(db, s, a, f, |s.keywords|);
    OnlyTotal(db, s, b, g, |s.keywords|);
    TermWorth(fold, ln, db, q, a, f);
    TermWorth(fold, ln, db, q, b, g);
    assert s.keywords[f] != "";
    HitsBounded(db.rows, Via(s, b, g));
    RarerHits(db, s, Via(s, a, f), Via(s, b, g));
  }

  lemma HitsBounded(rows: seq<Row>, kw: string)
    ensures |Hits(rows, kw)| <= |rows|
  {
    hide Hits, PositionsWhere;
    TextsHit(rows, kw);
    FilterPositions(Map(rows, RowContent), LikeContent(kw));
  }

  lemma RarerHits(db: Db, s: Scoring, rare: string, common: string)
    requires Monotone(s.ln)
    requires Hits(db.rows, rare) != {} && |Hits(db.rows, rare)| <= |Hits(db.rows, common)|
    ensures Idf(s.ln, |db.rows|, |Hits(db.rows, rare)|) >= Idf(s.ln, |db.rows|, |Hits(db.rows, common)|) >= 0.1
  {
    hide Hits, Idf;
    HitsBounded(db.rows, common);
    RarerWeighsMore(s.ln, |db.rows|, |Hits(db.rows, rare)|, |Hits(db.rows, common)|);
  }

  /** Whatever finds b finds a, through a string that is no more common. */
  ghost predicate Dominates(db: Db, s: Scoring, a: Row, b: Row, n: nat)
    requires n <= |s.keywords|
  {
    forall i :: 0 <= i < n && Found(s, b, i) ==>
      Found(s, a, i) && |Hits(db.rows, Via(s, a, i))| <= |Hits(db.rows, Via(s, b, i))|
  }

  lemma {:induction false} DominantTotal(fold: char -> char, ln: real -> real, db: Db, q: Query, a: Row, b: Row,
                                         n: nat)
    requires db.fts == FtsOf(db.rows) && n <= |Keywords(fold, q.text)| && Monotone(ln)
    requires Dominates(db, ScoringOf(fold, ln, db, q), a, b, n)
    ensures var s := ScoringOf(fold, ln, db, q);
      && Total(db, s, a, n) >= Total(db, s, b, n)
      && ((exists i :: 0 <= i < n && Found(s, a, i) && !Found(s, b, i)) ==> Total(db, s, a, n) > Total(db, s, b, n))
  {
    hide Keywords, CorpusOf, Hits, Via, Found, Worth, Monotone;
    if n > 0 {
      DominantTotal(fold, ln, db, q, a, b, n - 1);
      DominantWorth(fold, ln, db, q, a, b, n - 1);
    }
  }

  lemma DominantWorth(fold: char -> char, ln: real -> real, db: Db, q: Query, a: Row, b: Row, i: nat)
    requires db.fts == FtsOf(db.rows) && i < |Keywords(fold, q.text)| && Monotone(ln)
    requires Dominates(db, ScoringOf(fold, ln, db, q), a, b, i + 1)
    ensures var s := ScoringOf(fold, ln, db, q);
      && (Found(s, a, i) ==> Worth(db, s, a, i) > 0.0)
      && (Found(s, b, i) ==> Found(s, a, i) && Worth(db, s, a, i) >= Worth(db, s, b, i))
  {
    hide Keywords, CorpusOf, Hits, Idf, Via, Found, IsFirst, Monotone;
    var s := ScoringOf(fold, ln, db, q);
    TermWorth(fold, ln, db, q, a, i);
    if Found(s, b, i) {
      RarerHits(db, s, Via(s, a, i), Via(s, b, i));
    }
  }

  /** A row found by all the keywords that find another one, through strings no more common, never
      stands below it unless listed below, and stands above it if one more keyword finds it. */
  lemma MoreKeywordsWin(fold: char -> char, ln: real -> real, db: Db, q: Query, a: Row, b: Row)
    requires DistinctRows(db.rows) && db.fts == FtsOf(db.rows)
    requires Monotone(ln)
    requires Returned(fold, ln, db, q, a) && Returned(fold, ln, db, q, b)
    requires var s := ScoringOf(fold, ln, db, q); Dominates(db, s, a, b, |s.keywords|)
    ensures Outranks(fold, ln, db, q, b, a) ==> Sooner(db.rows, b, a)
    ensures var s := ScoringOf(fold, ln, db, q);
      (exists i :: 0 <= i < |s.keywords| && Found(s, a, i) && !Found(s, b, i)) ==> Outranks(fold, ln, db, q, a, b)
  {
    hide Keywords, CorpusOf, Returned, Outranks, Hits, Sooner, Via, Found, Total;
    var s := ScoringOf(fold, ln, db, q);
    OrderIs(fold, ln, db, q, a, b);
    OrderIs(fold, ln, db, q, b, a);
    DominantTotal(fold, ln, db, q, a, b, |s.keywords|);
  }

  lemma {:induction false} SameTotal(db: Db, s: Scoring, a: Row, b: Row, n: nat)
    requires n <= |s.keywords|
    requires forall i :: 0 <= i < n ==> (Found(s, a, i) <==> Found(s, b, i)) && Via(s, a, i) == Via(s, b, i)
    ensures Total(db, s, a, n) == Total(db, s, b, n)
  {
    hide Via, Found, Hits, Idf, IsFirst;
    if n > 0 {
      SameTotal(db, s, a, b, n - 1);
    }
  }

  /** Two rows found by the same keywords through the same strings stand as they are listed: the newer
      first, and of two equally old ones the one stored first. */
  lemma SameKeywordsByAge(fold: char -> char, ln: real -> real, db: Db, q: Query, a: Row, b: Row)
    requires DistinctRows(db.rows) && db.fts == FtsOf(db.rows)
    requires Returned(fold, ln, db, q, a) && Returned(fold, ln, db, q, b)
    requires var s := ScoringOf(fold, ln, db, q);
      forall i :: 0 <= i < |s.keywords| ==> (Found(s, a, i) <==> Found(s, b, i)) && Via(s, a, i) == Via(s, b, i)
    ensures Outranks(fold, ln, db, q, a, b)
       <==> a.createdAt > b.createdAt || (a.createdAt == b.createdAt && Precedes(db.rows, a, b))
  {
    hide Keywords, CorpusOf, Returned, Outranks, Via, Found, Total, Precedes;
    var s := ScoringOf(fold, ln, db, q);
    OrderIs(fold, ln, db, q, a, b);
    SameTotal(db, s, a, b, |s.keywords|);
  }
}
