/** Reading a rollout transcript: every turn repeats the whole message window, and the scanner
    must put each user prompt in front of one answer only. */
module Pairing {

  import opened Lists
  import opened Text

  datatype Block = TextBlock(text: string) | OtherBlock

  datatype Content = Plain(text: string) | Blocks(blocks: seq<Block>) | Opaque

  datatype Message = Message(role: string, content: Content)

  /** One line of the transcript; a line that does not decode is Malformed. */
  datatype Line = Malformed | Turn(kind: string, text: string, window: seq<Message>)

  /** A turn worth keeping: the prompt its window shows, empty if none, and the answer. */
  datatype Exchange = Exchange(prompt: string, answer: string)

  const REMINDER := "<system-reminder>"
  const MIN_ANSWER := 20

  predicate Usable(s: string) { s != "" && !(REMINDER <= s) }

  // ---- the prompt of a window ----

  function FirstUsable(blocks: seq<Block>): (r: string)
    ensures r != "" ==> Usable(r)
  {
    if blocks == [] then ""
    else if blocks[0].TextBlock? && Usable(Trim(blocks[0].text)) then Trim(blocks[0].text)
    else FirstUsable(blocks[1..])
  }

  /** The prompt one message offers, empty if it offers none. */
  function Offer(m: Message): (r: string)
    ensures r != "" ==> Usable(r) && m.role == "user"
  {
    if m.role != "user" then ""
    else match m.content
      case Plain(text) => if Usable(Trim(text)) then Trim(text) else ""
      case Blocks(blocks) => FirstUsable(blocks)
      case Opaque => ""
  }

  function WindowPrompt(window: seq<Message>): string {
    if window == [] then ""
    else
      var r := Offer(window[|window| - 1]);
      if r != "" then r else WindowPrompt(window[..|window| - 1])
  }

  /** The newest message that offers a prompt decides, and an empty result means none does. */
  lemma {:induction false} WindowPromptIsNewest(window: seq<Message>)
    ensures WindowPrompt(window) == "" <==> forall i :: 0 <= i < |window| ==> Offer(window[i]) == ""
    ensures WindowPrompt(window) != "" ==>
              exists i :: 0 <= i < |window| && Offer(window[i]) == WindowPrompt(window)
                && forall j :: i < j < |window| ==> Offer(window[j]) == ""
  {
    hide Offer;
    if window != [] && Offer(window[|window| - 1]) == "" {
      var before := window[..|window| - 1];
      WindowPromptIsNewest(before);
      if WindowPrompt(window) != "" {
        var i :| 0 <= i < |before| && Offer(before[i]) == WindowPrompt(before)
          && forall j :: i < j < |before| ==> Offer(before[j]) == "";
        assert Offer(window[i]) == WindowPrompt(window);
        assert forall j :: i < j < |window| ==> j == |window| - 1 || window[j] == before[j];
      } else {
        assert forall i :: 0 <= i < |window| ==> i == |window| - 1 || window[i] == before[i];
      }
    }
  }

  method FindUsable(blocks: seq<Block>) returns (r: string)
    ensures r == FirstUsable(blocks)
  {
    hide Trim;
    for i := 0 to |blocks|
      invariant FirstUsable(blocks) == FirstUsable(blocks[i..])
    {
      assert blocks[i..][1..] == blocks[i + 1..];
      if blocks[i].TextBlock? {
        var s := Trim(blocks[i].text);
        if Usable(s) {
          return s;
        }
      }
    }
    r := "";
  }

  method LastUserPrompt(window: seq<Message>) returns (r: string)
    ensures r == WindowPrompt(window)
  {
    hide Trim;
    assert window[..|window|] == window;
    for i := |window| downto 0
      invariant WindowPrompt(window) == WindowPrompt(window[..i])
    {
      assert window[..i + 1][..i] == window[..i];
      var m := window[i];
      if m.role == "user" {
        match m.content
        case Plain(text) =>
          var s := Trim(text);
          if Usable(s) {
            return s;
          }
        case Blocks(blocks) =>
          r := FindUsable(blocks);
          if r != "" {
            return r;
          }
        case Opaque =>
      }
    }
    r := "";
  }

  // ---- conversational noise ----

  /** A letter, digit or Chinese character, once the text is lower case. */
  predicate Worded(c: char) {
    'a' <= c <= 'z' || '0' <= c <= '9' || '\U{4E00}' <= c <= '\U{9FFF}'
  }

  predicate Filler(s: string) {
    || s == "hello" || s == "hi" || s == "hey" || s == "ok" || s == "okay" || s == "thanks"
    || s == "thank you" || s == "yes" || s == "no" || s == "yep" || s == "nope" || s == "sure"
    || s == "cool" || s == "nice" || s == "\U{7EE7}\U{7EED}" || s == "\U{597D}\U{7684}"
    || s == "\U{8C22}\U{8C22}" || s == "\U{5BF9}" || s == "\U{55EF}" || s == "\U{53EF}\U{4EE5}"
    || s == "go ahead" || s == "please" || s == "continue" || s == "skip" || s == "next"
  }

  predicate Command(s: string) {
    "/" <= s || "$ " <= s || "> " <= s || "<bash-input>" <= s || "<bash-output>" <= s
  }

  predicate Wordless(s: string) { forall i :: 0 <= i < |s| ==> !Worded(s[i]) }

  /** Too short, a command, tool output, nothing but punctuation, or a stock reply. */
  predicate Filtered(content: string) {
    var lower := Lower(Trim(content));
    ByteLen(content) < 10 || Command(lower) || Wordless(lower) || Filler(lower)
  }

  method ShouldFilterContent(content: string) returns (r: bool)
    ensures r == Filtered(content)
  {
    hide Trim, Lower, ByteLen;
    if ByteLen(content) < 10 {
      return true;
    }
    var lower := Lower(Trim(content));
    if Command(lower) {
      return true;
    }
    var allPunct := true;
    for i := 0 to |lower|
      invariant allPunct && forall j :: 0 <= j < i ==> !Worded(lower[j])
    {
      if Worded(lower[i]) {
        allPunct := false;
        break;
      }
    }
    r := allPunct || Filler(lower);
  }

  // ---- pairing ----

  predicate Qualifies(line: Line) {
    line.Turn? && line.kind == "model_io" && Trim(line.text) != "" && ByteLen(Trim(line.text)) >= MIN_ANSWER
  }

  /** The turns worth keeping, in order. */
  function Exchanges(lines: seq<Line>): seq<Exchange> {
    if lines == [] then []
    else
      var before, line := Exchanges(lines[..|lines| - 1]), lines[|lines| - 1];
      if Qualifies(line) then before + [Exchange(WindowPrompt(line.window), Trim(line.text))] else before
  }

  /** Turn i shows the same prompt as an earlier turn, with only prompt-less turns in between. */
  ghost predicate Continues(q: seq<Exchange>, i: nat)
    requires i < |q|
  {
    exists j :: 0 <= j < i && q[j].prompt == q[i].prompt && forall k :: j < k < i ==> q[k].prompt == ""
  }

  /** The first turn of a maximal block of turns that show the same prompt. */
  ghost predicate OpensBlock(q: seq<Exchange>, i: nat)
    requires i < |q|
  {
    q[i].prompt != "" && !Continues(q, i)
  }

  ghost predicate Asked(q: seq<Exchange>, i: nat)
    requires i < |q|
  {
    OpensBlock(q, i) && !Filtered(q[i].prompt)
  }

  function Pair(prompt: string, answer: string): string { "Q: " + prompt + "\nA: " + answer }

  ghost function ContentOf(q: seq<Exchange>, i: nat): string
    requires i < |q|
  {
    if Asked(q, i) then Pair(q[i].prompt, q[i].answer) else q[i].answer
  }

  /** The memories of the first n turns: a turn whose content is noise is dropped. */
  ghost function Memories(q: seq<Exchange>, n: nat): seq<string>
    requires n <= |q|
  {
    if n == 0 then []
    else
      Memories(q, n - 1) + (if Filtered(ContentOf(q, n - 1)) then [] else [ContentOf(q, n - 1)])
  }

  /** The last prompt the first n turns show. */
  function LastSeen(q: seq<Exchange>, n: nat): string
    requires n <= |q|
  {
    if n == 0 then "" else if q[n - 1].prompt != "" then q[n - 1].prompt else LastSeen(q, n - 1)
  }

  /** Comparing with the last prompt seen is enough to find where blocks open. */
  lemma {:induction false} OpensIffNew(q: seq<Exchange>, i: nat, n: nat)
    requires n <= i < |q| && q[i].prompt != ""
    requires forall k :: n <= k < i ==> q[k].prompt == ""
    ensures OpensBlock(q, i) <==> LastSeen(q, n) != q[i].prompt
    decreases n
  {
    if n > 0 {
      if q[n - 1].prompt == "" {
        OpensIffNew(q, i, n - 1);
      } else if q[n - 1].prompt != q[i].prompt {
        assert forall j :: 0 <= j < i && q[j].prompt == q[i].prompt ==> j < n - 1;
      }
    }
  }

  lemma ContinuesInPrefix(q: seq<Exchange>, x: Exchange, i: nat)
    requires i < |q|
    ensures Continues(q + [x], i) <==> Continues(q, i)
  {
    var q' := q + [x];
    assert forall k :: 0 <= k <= i ==> q'[k] == q[k];
    if Continues(q, i) {
      var j :| 0 <= j < i && q[j].prompt == q[i].prompt && forall k :: j < k < i ==> q[k].prompt == "";
      assert q'[j].prompt == q'[i].prompt && forall k :: j < k < i ==> q'[k].prompt == "";
    }
  }

  lemma {:induction false} PrefixAgrees(q: seq<Exchange>, x: Exchange, n: nat)
    requires n <= |q|
    ensures LastSeen(q + [x], n) == LastSeen(q, n)
    ensures Memories(q + [x], n) == Memories(q, n)
  {
    hide Filtered, Pair;
    if n > 0 {
      PrefixAgrees(q, x, n - 1);
      ContinuesInPrefix(q, x, n - 1);
    }
  }

  /** What one more qualifying turn adds, in the scanner's terms. */
  lemma Next(q: seq<Exchange>, x: Exchange)
    ensures var q' := q + [x]; var last := LastSeen(q, |q|); var n := |q|;
            && LastSeen(q', n + 1) == (if x.prompt != "" then x.prompt else last)
            && ContentOf(q', n) == (if x.prompt != "" && x.prompt != last && !Filtered(x.prompt)
                                    then Pair(x.prompt, x.answer) else x.answer)
            && Memories(q', n + 1)
               == if Filtered(ContentOf(q', n)) then Memories(q, n) else Memories(q, n) + [ContentOf(q', n)]
  {
    hide Filtered;
    PrefixAgrees(q, x, |q|);
    if x.prompt != "" {
      OpensIffNew(q + [x], |q|, |q|);
    }
  }

  /** Whether to pair the prompt of this turn, given the scanner's two state variables. */
  method Admit(userPrompt: string, lastSeenUserPrompt: string, promptPaired: bool)
    returns (prompt: string, lastSeen: string, paired: bool)
    requires promptPaired <==> lastSeenUserPrompt != "" && !Filtered(lastSeenUserPrompt)
    ensures prompt == if userPrompt != "" && userPrompt != lastSeenUserPrompt && !Filtered(userPrompt)
                      then userPrompt else ""
    ensures lastSeen == if userPrompt != "" then userPrompt else lastSeenUserPrompt
    ensures paired <==> lastSeen != "" && !Filtered(lastSeen)
  {
    hide Filtered;
    prompt, lastSeen, paired := userPrompt, lastSeenUserPrompt, promptPaired;
    if prompt != "" && prompt != lastSeen {
      lastSeen, paired := prompt, false;
    }
    if paired {
      prompt := "";
    } else if prompt != "" {
      var noise := ShouldFilterContent(prompt);
      if noise {
        prompt := "";
      }
    }
    if prompt != "" {
      paired := true;
    }
  }

  lemma ExchangesNext(lines: seq<Line>, i: nat)
    requires i < |lines|
    ensures Exchanges(lines[..i + 1])
         == if Qualifies(lines[i])
            then Exchanges(lines[..i]) + [Exchange(WindowPrompt(lines[i].window), Trim(lines[i].text))]
            else Exchanges(lines[..i])
  {
    hide Qualifies, WindowPrompt, Trim;
    assert lines[..i + 1][..i] == lines[..i];
  }

  /** The scan loop: pairs a prompt exactly with the turn that opens its block. */
  method ParseRollout(lines: seq<Line>) returns (memories: seq<string>)
    ensures var q := Exchanges(lines); memories == Memories(q, |q|)
  {
    assert Exchanges([]) == [] && Memories([], 0) == [] && LastSeen([], 0) == "";
    hide Exchanges, Filtered, Trim, ByteLen, Asked, Pair, Memories, LastSeen, WindowPrompt, ContentOf;
    memories := [];
    var lastSeenUserPrompt, promptPaired := "", false;
    ghost var q: seq<Exchange> := [];
    for i := 0 to |lines|
      invariant q == Exchanges(lines[..i])
      invariant memories == Memories(q, |q|)
      invariant lastSeenUserPrompt == LastSeen(q, |q|)
      invariant promptPaired <==> lastSeenUserPrompt != "" && !Filtered(lastSeenUserPrompt)
    {
      ExchangesNext(lines, i);
      var line := lines[i];
      if line.Malformed? || line.kind != "model_io" {
        continue;
      }
      var answer := Trim(line.text);
      if answer == "" || ByteLen(answer) < MIN_ANSWER {
        continue;
      }
      var userPrompt := LastUserPrompt(line.window);
      Next(q, Exchange(userPrompt, answer));
      q := q + [Exchange(userPrompt, answer)];
      userPrompt, lastSeenUserPrompt, promptPaired := Admit(userPrompt, lastSeenUserPrompt, promptPaired);
      var content := if userPrompt != "" then Pair(userPrompt, answer) else answer;
      var noise := ShouldFilterContent(content);
      if !noise {
        memories := memories + [content];
      }
    }
    assert lines[..|lines|] == lines;
  }

  // ---- what the pairing promises ----

  /** Every turn that shows a prompt belongs to a block with exactly one opening turn. */
  lemma {:induction false} BlockHasOneOpening(q: seq<Exchange>, i: nat) returns (j: nat)
    requires i < |q| && q[i].prompt != ""
    ensures j <= i && q[j].prompt == q[i].prompt && OpensBlock(q, j)
    ensures forall k :: j < k <= i ==> (q[k].prompt == "" || q[k].prompt == q[i].prompt) && !OpensBlock(q, k)
    decreases i
  {
    j := i;
    if Continues(q, i) {
      var h :| 0 <= h < i && q[h].prompt == q[i].prompt && forall k :: h < k < i ==> q[k].prompt == "";
      j := BlockHasOneOpening(q, h);
      forall k | j < k <= i
        ensures (q[k].prompt == "" || q[k].prompt == q[i].prompt) && !OpensBlock(q, k)
      {
        assert k <= h || q[k].prompt == "" || k == i;
      }
    }
  }

  /** The same prompt is asked again only after a different one. */
  lemma AskedAgain(q: seq<Exchange>, i: nat, j: nat)
    requires i < j < |q| && Asked(q, i) && Asked(q, j) && q[i].prompt == q[j].prompt
    ensures exists k :: i < k < j && q[k].prompt != "" && q[k].prompt != q[j].prompt
  {
    hide Filtered;
    if forall k :: i < k < j ==> q[k].prompt == "" || q[k].prompt == q[j].prompt {
      var h := BlockHasOneOpening(q, j);
      assert h == j;
      NotContinued(q, i, j);
    }
  }

  /** The nearest turn that shows a prompt decides. */
  lemma {:induction false} NotContinued(q: seq<Exchange>, i: nat, j: nat)
    requires i < j < |q| && q[i].prompt == q[j].prompt != ""
    requires forall k :: i < k < j ==> q[k].prompt == "" || q[k].prompt == q[j].prompt
    ensures Continues(q, j)
    decreases j - i
  {
    if k :| i < k < j && q[k].prompt != "" {
      NotContinued(q, k, j);
    } else {
      assert q[i].prompt == q[j].prompt && forall k :: i < k < j ==> q[k].prompt == "";
    }
  }

  lemma {:induction false} BytesPerChar(s: string)
    ensures ByteLen(s) <= 4 * |s|
  {
    if s != [] {
      BytesPerChar(s[1..]);
    }
  }

  /** A paired prompt is never lost: the prefix makes the content pass the noise filter. */
  lemma PairIsKept(prompt: string, answer: string)
    requires Trimmed(answer) && ByteLen(answer) >= MIN_ANSWER
    ensures !Filtered(Pair(prompt, answer))
  {
    BytesPerChar(answer);
    var content := Pair(prompt, answer);
    hide ByteLen;
    assert content[0] == 'Q' && content[1] == ':' && content[|content| - 1] == answer[|answer| - 1];
    assert Trim(content) == content;
    hide Trim;
    var lower := Lower(content);
    assert lower[0] == 'q' && lower[1] == ':';
    assert !Filler(lower);
    assert Worded(lower[0]);
  }

  lemma {:induction false} AnswersQualify(lines: seq<Line>, i: nat)
    requires i < |Exchanges(lines)|
    ensures Trimmed(Exchanges(lines)[i].answer) && ByteLen(Exchanges(lines)[i].answer) >= MIN_ANSWER
  {
    hide WindowPrompt, ByteLen;
    if i < |Exchanges(lines[..|lines| - 1])| {
      AnswersQualify(lines[..|lines| - 1], i);
    }
  }

  lemma {:induction false} ContentIsKept(q: seq<Exchange>, i: nat, n: nat)
    requires i < n <= |q| && !Filtered(ContentOf(q, i))
    ensures ContentOf(q, i) in Memories(q, n)
    decreases n
  {
    hide Filtered, ContentOf;
    if i < n - 1 {
      ContentIsKept(q, i, n - 1);
    }
  }

  /** So every block whose prompt is no noise leaves its prompt and first answer in the store. */
  lemma EveryBlockIsRemembered(lines: seq<Line>, i: nat)
    requires var q := Exchanges(lines); i < |q| && Asked(q, i)
    ensures var q := Exchanges(lines); "Q: " + q[i].prompt + "\nA: " + q[i].answer in Memories(q, |q|)
  {
    hide Filtered, Exchanges;
    var q := Exchanges(lines);
    AnswersQualify(lines, i);
    PairIsKept(q[i].prompt, q[i].answer);
    ContentIsKept(q, i, |q|);
  }

  // ---- what is read off a line ----

  /** A model turn whose answer has at least twenty bytes once trimmed. */
  predicate Answering(line: Line) {
    line.Turn? && line.kind == "model_io" && ByteLen(Trim(line.text)) >= 20
  }

  function ExchangeOf(line: Line): Exchange {
    if line.Turn? then Exchange(WindowPrompt(line.window), Trim(line.text)) else Exchange("", "")
  }

  /** One exchange per such turn, in order: the prompt its window shows and its trimmed answer. */
  lemma {:induction false} ExchangesAre(lines: seq<Line>)
    ensures Exchanges(lines) == Map(Filter(lines, Answering), ExchangeOf)
  {
    hide Trim, ByteLen, WindowPrompt, Qualifies, Answering;
    if lines != [] {
      var before, last := lines[..|lines| - 1], lines[|lines| - 1];
      assert lines == before + [last];
      ExchangesAre(before);
      FilterLast(before, last, Answering);
      MapAppend(Filter(before, Answering), last, ExchangeOf);
      AnswersIff(last);
    }
  }

  lemma AnswersIff(line: Line)
    ensures Qualifies(line) <==> Answering(line)
    ensures Qualifies(line) ==> ExchangeOf(line) == Exchange(WindowPrompt(line.window), Trim(line.text))
  {
    hide Trim, WindowPrompt;
  }

  /** Text that counts as a prompt: not empty, and no reminder of the system. */
  predicate Prompting(s: string) { s != "" && !("<system-reminder>" <= s) }

  /** A user message offers its trimmed text, or that of its first block that counts; any other
      message, and one without such text, offers nothing. */
  lemma OfferIs(m: Message)
    ensures m.role != "user" || m.content.Opaque? ==> Offer(m) == ""
    ensures m.role == "user" && m.content.Plain? ==>
      Offer(m) == if Prompting(Trim(m.content.text)) then Trim(m.content.text) else ""
    ensures m.role == "user" && m.content.Blocks? ==> Offered(m.content.blocks, Offer(m))
  {
    hide Trim;
    if m.content.Blocks? {
      BlocksOffer(m.content.blocks);
    }
  }

  /** r is the text of the first block that counts, or empty if none does. */
  ghost predicate Offered(blocks: seq<Block>, r: string) {
    if r == "" then forall i :: 0 <= i < |blocks| && blocks[i].TextBlock? ==> !Prompting(Trim(blocks[i].text))
    else exists i :: 0 <= i < |blocks| && FirstPrompt(blocks, i) && r == Trim(blocks[i].text)
  }

  ghost predicate FirstPrompt(blocks: seq<Block>, i: nat)
    requires i < |blocks|
  {
    && blocks[i].TextBlock? && Prompting(Trim(blocks[i].text))
    && forall j :: 0 <= j < i && blocks[j].TextBlock? ==> !Prompting(Trim(blocks[j].text))
  }

  lemma {:induction false} BlocksOffer(blocks: seq<Block>)
    ensures Offered(blocks, FirstUsable(blocks))
  {
    hide Trim;
    if blocks != [] {
      var rest := blocks[1..];
      BlocksOffer(rest);
      assert forall i :: 0 < i < |blocks| ==> blocks[i] == rest[i - 1];
      if blocks[0].TextBlock? && Prompting(Trim(blocks[0].text)) {
        assert FirstPrompt(blocks, 0);
      } else if FirstUsable(rest) != "" {
        var i :| 0 <= i < |rest| && FirstPrompt(rest, i) && FirstUsable(rest) == Trim(rest[i].text);
        assert FirstPrompt(blocks, i + 1) by {
          assert forall j :: 0 < j < i + 1 ==> blocks[j] == rest[j - 1];
        }
      }
    }
  }

  /** Replies that say nothing. */
  ghost predicate StockReply(s: string) {
    || s in {"hello", "hi", "hey", "ok", "okay", "thanks", "thank you", "yes", "no", "yep", "nope", "sure"}
    || s in {"cool", "nice", "go ahead", "please", "continue", "skip", "next"}
    || s in {"\U{7EE7}\U{7EED}", "\U{597D}\U{7684}", "\U{8C22}\U{8C22}", "\U{5BF9}", "\U{55EF}", "\U{53EF}\U{4EE5}"}
  }

  lemma FillerIff(s: string)
    ensures Filler(s) <==> StockReply(s)
  {
  }

  /** Exactly the short contents, the commands and tool outputs, those without a letter, digit or
      Chinese character, and the stock replies are noise. */
  lemma FilteredIff(content: string)
    ensures var lower := Lower(Trim(content));
      Filtered(content) <==>
        || ByteLen(content) < 10
        || "/" <= lower || "$ " <= lower || "> " <= lower || "<bash-input>" <= lower || "<bash-output>" <= lower
        || (forall c :: c in lower ==> !('a' <= c <= 'z' || '0' <= c <= '9' || '\U{4E00}' <= c <= '\U{9FFF}'))
        || StockReply(lower)
  {
    hide Trim, Lower, ByteLen, Filler, StockReply;
    var lower := Lower(Trim(content));
    FillerIff(lower);
    assert Wordless(lower) <==> forall c :: c in lower ==> !Worded(c);
  }
}
