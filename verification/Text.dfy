/** Strings as the store sees them: trimming, ASCII case folding, UTF-8 length, substring
    tests and the SQL LIKE operator. */
module Text {

  /** Unicode white space, as strings.TrimSpace strips it. */
  predicate IsSpace(c: char) {
    '\t' <= c <= '\r' || c == ' ' || c == '\U{85}' || c == '\U{A0}' || c == '\U{1680}'
    || '\U{2000}' <= c <= '\U{200A}' || c == '\U{2028}' || c == '\U{2029}'
    || c == '\U{202F}' || c == '\U{205F}' || c == '\U{3000}'
  }

  function TrimLeft(s: string): (r: string)
    ensures r == [] || !IsSpace(r[0])
  {
    if s != [] && IsSpace(s[0]) then TrimLeft(s[1..]) else s
  }

  function TrimRight(s: string): (r: string)
    ensures r == [] || !IsSpace(r[|r| - 1])
    ensures r <= s
  {
    if s != [] && IsSpace(s[|s| - 1]) then TrimRight(s[..|s| - 1]) else s
  }

  function Trim(s: string): (r: string)
    ensures Trimmed(r)
    ensures Trimmed(s) ==> r == s
  {
    TrimRight(TrimLeft(s))
  }

  /** Nothing left to trim at either end. */
  predicate Trimmed(s: string) {
    s == [] || (!IsSpace(s[0]) && !IsSpace(s[|s| - 1]))
  }

  function LowerChar(c: char): char {
    if 'A' <= c <= 'Z' then ((c as int) + 32) as char else c
  }

  function Lower(s: string): (r: string)
    ensures |r| == |s|
  {
    seq(|s|, i requires 0 <= i < |s| => LowerChar(s[i]))
  }

  lemma LowerIdempotent(s: string)
    ensures Lower(Lower(s)) == Lower(s)
  {
  }

  /** strings.ToLower, with its character table as a parameter. */
  function Fold(fold: char -> char, s: string): (r: string)
    ensures |r| == |s|
  {
    seq(|s|, i requires 0 <= i < |s| => fold(s[i]))
  }

  /** What every such table does to ASCII. */
  ghost predicate FoldsAscii(fold: char -> char) {
    forall c: char :: c < '\U{80}' ==> fold(c) == LowerChar(c)
  }

  /** SQL, which folds ASCII only, sees no difference between the text and its folded form. */
  ghost predicate FoldsAlike(fold: char -> char, s: string) {
    forall i :: 0 <= i < |s| ==> LowerChar(fold(s[i])) == LowerChar(s[i])
  }

  /** len(s) in Go: the number of UTF-8 bytes. */
  function ByteLen(s: string): (n: nat)
    ensures n >= |s|
  {
    if s == [] then 0
    else
      var c := s[0] as int;
      (if c < 0x80 then 1 else if c < 0x800 then 2 else if c < 0x10000 then 3 else 4) + ByteLen(s[1..])
  }

  predicate At(s: string, i: nat, sub: string) {
    i + |sub| <= |s| && s[i..i + |sub|] == sub
  }

  predicate Contains(s: string, sub: string) {
    exists i :: 0 <= i <= |s| && At(s, i, sub)
  }

  /** SQL LIKE: % matches any run, _ any one character, the rest fold ASCII case. */
  predicate Like(pattern: string, s: string)
    decreases |pattern| + |s|
  {
    if pattern == [] then s == []
    else if pattern[0] == '%' then Like(pattern[1..], s) || (s != [] && Like(pattern, s[1..]))
    else s != [] && (pattern[0] == '_' || LowerChar(pattern[0]) == LowerChar(s[0])) && Like(pattern[1..], s[1..])
  }

  lemma {:induction false} PercentMatchesAll(s: string)
    ensures Like("%", s)
    decreases |s|
  {
    if s != [] {
      PercentMatchesAll(s[1..]);
    }
  }

  lemma {:induction false} LikeSkip(pattern: string, s: string, i: nat)
    requires i <= |s| && Like(pattern, s[i..])
    ensures Like("%" + pattern, s)
    decreases i
  {
    var p := "%" + pattern;
    assert p[1..] == pattern;
    if i == 0 {
      assert s[0..] == s;
    } else {
      assert s[1..][i - 1..] == s[i..];
      LikeSkip(pattern, s[1..], i - 1);
    }
  }

  predicate Wild(c: char) { c == '%' || c == '_' }

  /** A pattern with any wildcards in it still matches its own text, in either case, and whatever
      stands in their places. */
  lemma {:induction false} LikeSelf(pattern: string, s: string)
    requires |pattern| <= |s|
    requires forall i :: 0 <= i < |pattern| ==> Wild(pattern[i]) || LowerChar(s[i]) == LowerChar(pattern[i])
    ensures Like(pattern + "%", s)
    decreases |pattern|
  {
    var p := pattern + "%";
    if pattern == [] {
      assert p == "%";
      PercentMatchesAll(s);
    } else {
      var rest := pattern[1..];
      assert p[1..] == rest + "%";
      assert forall i :: 0 <= i < |rest| ==> s[1..][i] == s[i + 1] && rest[i] == pattern[i + 1];
      LikeSelf(rest, s[1..]);
      if pattern[0] == '%' {
        assert Like(p[1..], s[1..]);
        LikeSkip(p[1..], s, 1);
        assert "%" + p[1..] == p;
      }
    }
  }

  /** The prefilter is sound on texts that fold alike: whatever Go's folded substring test accepts,
      '%kw%' accepts too. */
  lemma ContainsImpliesLike(fold: char -> char, s: string, kw: string)
    requires FoldsAlike(fold, s) && Contains(Fold(fold, s), kw)
    ensures Like("%" + kw + "%", s)
  {
    var i :| 0 <= i <= |s| && At(Fold(fold, s), i, kw);
    forall j | 0 <= j < |kw|
      ensures LowerChar(s[i..][j]) == LowerChar(kw[j])
    {
      assert kw[j] == Fold(fold, s)[i..i + |kw|][j] == fold(s[i + j]);
    }
    LikeSelf(kw, s[i..]);
    LikeSkip(kw + "%", s, i);
    assert "%" + (kw + "%") == "%" + kw + "%";
  }

  predicate PrefixOf(p: string, s: string) {
    |p| <= |s| && forall i :: 0 <= i < |p| ==> LowerChar(p[i]) == LowerChar(s[i])
  }

  lemma {:induction false} LikePrefix(p: string, s: string)
    requires forall i :: 0 <= i < |p| ==> !Wild(p[i])
    ensures Like(p + "%", s) <==> PrefixOf(p, s)
  {
    if p == [] {
      assert p + "%" == "%";
      PercentMatchesAll(s);
    } else {
      var q := p + "%";
      assert q[1..] == p[1..] + "%";
      if s != [] {
        LikePrefix(p[1..], s[1..]);
        assert PrefixOf(p, s) <==> LowerChar(p[0]) == LowerChar(s[0]) && PrefixOf(p[1..], s[1..]) by {
          assert forall i :: 0 < i < |p| ==> p[i] == p[1..][i - 1];
          assert forall i :: 0 < i < |s| ==> s[i] == s[1..][i - 1];
          assert forall i :: 0 <= i < |p| - 1 ==> p[1..][i] == p[i + 1];
          assert forall i :: 0 <= i < |s| - 1 ==> s[1..][i] == s[i + 1];
        }
      }
    }
  }

  /** The text with an x in place of each wildcard. */
  function Filled(p: string): string { seq(|p|, i requires 0 <= i < |p| => if Wild(p[i]) then 'x' else p[i]) }

  /** 'p%' means "starts with p, up to case" exactly when p holds no wildcard. */
  lemma LikePrefixIff(p: string)
    ensures (forall s :: Like(p + "%", s) <==> PrefixOf(p, s)) <==> forall i :: 0 <= i < |p| ==> !Wild(p[i])
  {
    if forall i :: 0 <= i < |p| ==> !Wild(p[i]) {
      forall s { LikePrefix(p, s); }
    } else {
      var i :| 0 <= i < |p| && Wild(p[i]);
      var s := Filled(p);
      LikeSelf(p, s);
      assert LowerChar(p[i]) != LowerChar(s[i]);
      assert !PrefixOf(p, s);
    }
  }

  /** LIKE already folds case, so lower(content) LIKE p and content LIKE p agree. */
  lemma {:induction false} LikeIgnoresCase(pattern: string, s: string)
    ensures Like(pattern, Lower(s)) == Like(pattern, s)
    decreases |pattern| + |s|
  {
    if pattern != [] {
      if s != [] {
        assert Lower(s)[1..] == Lower(s[1..]);
        LikeIgnoresCase(pattern[1..], s[1..]);
        LikeIgnoresCase(pattern, s[1..]);
      }
      LikeIgnoresCase(pattern[1..], s);
    }
  }

  // ---- what the text functions are ----

  ghost predicate Blank(s: string) { forall i :: 0 <= i < |s| ==> IsSpace(s[i]) }

  lemma {:induction false} LeftSplits(s: string) returns (a: string)
    ensures Blank(a) && s == a + TrimLeft(s)
  {
    a := "";
    if s != [] && IsSpace(s[0]) {
      var b := LeftSplits(s[1..]);
      a := [s[0]] + b;
      assert s == [s[0]] + s[1..];
    }
  }

  lemma {:induction false} RightSplits(s: string) returns (b: string)
    ensures Blank(b) && s == TrimRight(s) + b
  {
    b := "";
    if s != [] && IsSpace(s[|s| - 1]) {
      var c := RightSplits(s[..|s| - 1]);
      b := c + [s[|s| - 1]];
      assert s == s[..|s| - 1] + [s[|s| - 1]];
    }
  }

  /** Trimming takes white space off both ends, all of it, and nothing else. */
  lemma TrimIs(s: string) returns (a: string, b: string)
    ensures s == a + Trim(s) + b && Blank(a) && Blank(b)
    ensures Trim(s) != "" ==> !IsSpace(Trim(s)[0]) && !IsSpace(Trim(s)[|Trim(s)| - 1])
  {
    a := LeftSplits(s);
    b := RightSplits(TrimLeft(s));
  }

  /** Folding turns the letter at each place of one alphabet into that of the other, and keeps every
      other character. */
  lemma LowerIs(c: char)
    ensures var upper, lower := "ABCDEFGHIJKLMNOPQRSTUVWXYZ", "abcdefghijklmnopqrstuvwxyz";
      && (forall i :: 0 <= i < 26 && c == upper[i] ==> LowerChar(c) == lower[i])
      && (c !in upper ==> LowerChar(c) == c)
  {
    var upper := "ABCDEFGHIJKLMNOPQRSTUVWXYZ";
    if 'A' <= c <= 'Z' {
      assert upper[c as int - 'A' as int] == c;
    }
  }

  lemma {:induction false} LikeSkips(pattern: string, s: string)
    ensures Like("%" + pattern, s) <==> exists i :: 0 <= i <= |s| && Like(pattern, s[i..])
    decreases |s|
  {
    var p := "%" + pattern;
    assert p[1..] == pattern;
    assert s[0..] == s;
    if s != [] {
      LikeSkips(pattern, s[1..]);
      if i :| 0 <= i <= |s[1..]| && Like(pattern, s[1..][i..]) {
        assert s[1..][i..] == s[i + 1..];
      }
      if i :| 0 <= i <= |s| && Like(pattern, s[i..]) {
        assert i > 0 ==> s[1..][i - 1..] == s[i..];
      }
    }
  }

  /** For a string without wildcards '%kw%' means "contains it, up to case". */
  lemma LikeContains(kw: string, s: string)
    requires forall i :: 0 <= i < |kw| ==> !Wild(kw[i])
    ensures Like("%" + kw + "%", s) <==> exists i :: 0 <= i <= |s| && PrefixOf(kw, s[i..])
  {
    hide Like, PrefixOf;
    assert "%" + kw + "%" == "%" + (kw + "%");
    LikeSkips(kw + "%", s);
    forall i | 0 <= i <= |s| { LikePrefix(kw, s[i..]); }
  }

  /** '_' matches any one character. */
  lemma LikeOne(pattern: string, s: string)
    ensures Like("_" + pattern, s) <==> s != "" && Like(pattern, s[1..])
  {
    assert ("_" + pattern)[1..] == pattern;
  }

  lemma {:induction false} ByteLenAppend(a: string, b: string)
    ensures ByteLen(a + b) == ByteLen(a) + ByteLen(b)
  {
    if a == [] {
      assert a + b == b;
    } else {
      assert (a + b)[1..] == a[1..] + b;
      ByteLenAppend(a[1..], b);
    }
  }

  /** The 25 characters of Unicode white space. */
  lemma SpaceIs(c: char)
    ensures IsSpace(c) <==>
      c in {'\t', '\n', '\U{B}', '\U{C}', '\r', ' ', '\U{85}', '\U{A0}', '\U{1680}', '\U{2000}', '\U{2001}',
            '\U{2002}', '\U{2003}', '\U{2004}', '\U{2005}', '\U{2006}', '\U{2007}', '\U{2008}', '\U{2009}',
            '\U{200A}', '\U{2028}', '\U{2029}', '\U{202F}', '\U{205F}', '\U{3000}'}
  {
  }

  /** The bytes of one character in UTF-8. */
  lemma BytesOfChar(c: char)
    ensures ByteLen([c]) == if c < '\U{80}' then 1 else if c < '\U{800}' then 2 else if c < '\U{10000}' then 3 else 4
  {
    assert [c][1..] == [];
  }
}
