/** The markdown files of the file store: a header between separator lines, then the body. The
    header is the text the YAML encoder produces; it ends in a newline. */
module FrontMatter {

  import opened Text

  datatype Parsed = Parsed(header: string, body: string) | Invalid | Unclosed

  const SEPARATOR := "---\n"
  const CLOSING := "\n---\n"

  /** The first place where sub occurs in s, from i on; -1 if there is none. */
  function IndexFrom(s: string, sub: string, i: nat): (r: int)
    requires i <= |s|
    ensures r == -1 || (i <= r <= |s| && At(s, r, sub))
    ensures forall j: nat :: i <= j <= |s| && At(s, j, sub) ==> 0 <= r <= j
    decreases |s| - i
  {
    if At(s, i, sub) then i else if i == |s| then -1 else IndexFrom(s, sub, i + 1)
  }

  function DropLeading(s: string): (r: string)
    ensures r == "" || r[0] != '\n'
  {
    if s != "" && s[0] == '\n' then DropLeading(s[1..]) else s
  }

  function DropTrailing(s: string): (r: string)
    ensures r == "" || r[|r| - 1] != '\n'
  {
    if s != "" && s[|s| - 1] == '\n' then DropTrailing(s[..|s| - 1]) else s
  }

  /** strings.Trim(s, "\n"). */
  function TrimNewlines(s: string): string { DropTrailing(DropLeading(s)) }

  predicate Newlines(s: string) { forall i :: 0 <= i < |s| ==> s[i] == '\n' }

  function Written(header: string, content: string): string {
    SEPARATOR + header + SEPARATOR + (content + "\n")
  }

  function ReadFromFile(text: string): Parsed {
    if !(SEPARATOR <= text) then Invalid
    else
      var rest := text[|SEPARATOR|..];
      var end := IndexFrom(rest, CLOSING, 0);
      if end == -1 then Unclosed
      else Parsed(rest[..end], TrimNewlines(rest[end + |CLOSING|..]))
  }

  // ---- trimming ----

  lemma {:induction false} LeadingSplit(s: string) returns (a: string)
    ensures Newlines(a) && s == a + DropLeading(s)
  {
    a := "";
    if s != "" && s[0] == '\n' {
      var b := LeadingSplit(s[1..]);
      a := "\n" + b;
      assert s == [s[0]] + s[1..];
    }
  }

  lemma {:induction false} TrailingSplit(s: string) returns (b: string)
    ensures Newlines(b) && s == DropTrailing(s) + b
  {
    b := "";
    if s != "" && s[|s| - 1] == '\n' {
      var c := TrailingSplit(s[..|s| - 1]);
      b := c + "\n";
      assert s == s[..|s| - 1] + [s[|s| - 1]];
    }
  }

  /** Trimming takes newlines off both ends, all of them, and nothing else. */
  lemma TrimSplits(s: string) returns (a: string, b: string)
    ensures var t := TrimNewlines(s);
            && s == a + t + b && Newlines(a) && Newlines(b)
            && (t != "" ==> t[0] != '\n' && t[|t| - 1] != '\n')
  {
    a := LeadingSplit(s);
    b := TrailingSplit(DropLeading(s));
  }

  lemma {:induction false} TrimFinalNewline(s: string)
    ensures TrimNewlines(s + "\n") == TrimNewlines(s)
    decreases |s|
  {
    if s == "" {
      assert s + "\n" == "\n";
      assert DropLeading("\n") == DropLeading("");
    } else if s[0] == '\n' {
      assert (s + "\n")[1..] == s[1..] + "\n";
      TrimFinalNewline(s[1..]);
    } else {
      assert (s + "\n")[..|s|] == s;
    }
  }

  lemma TrimTwice(s: string)
    ensures TrimNewlines(TrimNewlines(s)) == TrimNewlines(s)
  {
    var a, b := TrimSplits(s);
  }

  // ---- round trips ----

  /** The closing separator is found where the header ends, unless the header holds one. */
  lemma FirstClosing(h: string, rest: string)
    ensures var text := h + CLOSING + rest;
            IndexFrom(text, CLOSING, 0) == |h| <==> !Contains(h + "\n", CLOSING)
  {
    var header, text := h + "\n", h + CLOSING + rest;
    assert text == header + (SEPARATOR + rest);
    assert At(text, |h|, CLOSING);
    var r := IndexFrom(text, CLOSING, 0);
    forall i: nat | i < |h|
      ensures At(text, i, CLOSING) <==> i + 5 <= |header| && At(header, i, CLOSING)
    {
      if i + 5 <= |header| {
        assert text[i..i + 5] == header[i..i + 5];
      } else if i + 5 <= |text| {
        assert text[i..i + 5][|h| - i] != CLOSING[|h| - i];
      }
    }
    if Contains(header, CLOSING) {
      var i :| 0 <= i <= |header| && At(header, i, CLOSING);
      assert At(text, i, CLOSING);
    }
  }

  /** Reading back what was written gives the header without its final newline and the body
      without edge newlines, whatever the body holds, exactly when no line inside the header
      looks like the closing separator. */
  lemma RoundTripIff(header: string, content: string)
    requires header != "" && header[|header| - 1] == '\n'
    ensures ReadFromFile(Written(header, content)) == Parsed(header[..|header| - 1], TrimNewlines(content))
       <==> !Contains(header, CLOSING)
  {
    hide TrimNewlines, IndexFrom;
    var h, text := header[..|header| - 1], Written(header, content);
    var rest := text[|SEPARATOR|..];
    assert header == h + "\n";
    assert rest == h + CLOSING + (content + "\n");
    FirstClosing(h, content + "\n");
    TrimFinalNewline(content);
    var end := IndexFrom(rest, CLOSING, 0);
    assert At(rest, |h|, CLOSING);
    assert 0 <= end <= |h|;
    if end == |h| {
      assert rest[..end] == h && rest[end + |CLOSING|..] == content + "\n";
    } else {
      assert |rest[..end]| != |h|;
    }
  }

  /** Building the file: what it holds, and when reading it gives the parts back. */
  method WriteToFile(header: string, content: string) returns (text: string)
    ensures text == "---\n" + header + "---\n" + content + "\n"
    ensures header != "" && header[|header| - 1] == '\n' ==>
      (ReadFromFile(text) == Parsed(header[..|header| - 1], TrimNewlines(content)) <==> !Contains(header, CLOSING))
  {
    hide ReadFromFile, TrimNewlines;
    text := SEPARATOR;
    text := text + header;
    text := text + SEPARATOR;
    text := text + (content + "\n");
    assert text == Written(header, content);
    if header != "" && header[|header| - 1] == '\n' {
      RoundTripIff(header, content);
    }
  }

  /** A file that can be read at all survives being written and read again, unchanged. */
  lemma RewriteIsStable(text: string)
    requires ReadFromFile(text).Parsed?
    ensures var p := ReadFromFile(text); ReadFromFile(Written(p.header + "\n", p.body)) == p
  {
    hide TrimNewlines, IndexFrom;
    var p, rest := ReadFromFile(text), text[|SEPARATOR|..];
    var header := p.header + "\n";
    var end := IndexFrom(rest, CLOSING, 0);
    assert rest[end..end + 5][0] == '\n';
    assert header == rest[..end + 1];
    forall i: nat | i <= |header|
      ensures !At(header, i, CLOSING)
    {
      if i + 5 <= |header| {
        assert rest[i..i + 5] == header[i..i + 5];
        assert !At(rest, i, CLOSING);
      }
    }
    RoundTripIff(header, p.body);
    assert header[..|header| - 1] == p.header;
    TrimTwice(rest[end + |CLOSING|..]);
  }

  /** Reading fails exactly when the text does not begin with a separator line, or no other one
      follows the header. */
  lemma ReadFailsIff(text: string)
    ensures ReadFromFile(text) == Invalid <==> !("---\n" <= text)
    ensures ReadFromFile(text) == Unclosed <==> "---\n" <= text && !Contains(text[4..], "\n---\n")
  {
    if "---\n" <= text {
      var rest := text[4..];
      var end := IndexFrom(rest, CLOSING, 0);
      if Contains(rest, "\n---\n") {
        var i :| 0 <= i <= |rest| && At(rest, i, "\n---\n");
        assert At(rest, i, CLOSING);
      }
    }
  }
}
