/** Replacing the payload of a Markdown record reads back, exactly when the payload holds no closing
    fence of its own.  The laws follow the text line by line: which lines open a block, which line
    closes it, what a replacement keeps before and after, and what the document written for a new
    record looks like.  Titles and notices are single lines, so they cannot open a second block.
  */
module MarkdownRecordLaws {
  import opened Json
  import opened MarkdownRecord

  predicate NoOpener(kind: string, lines: seq<string>) {
    forall i | 0 <= i < |lines| :: !Opens(kind, lines[i])
  }

  predicate NoCloser(lines: seq<string>) {
    forall i | 0 <= i < |lines| :: !Closes(lines[i])
  }

  lemma {:induction false} NextCloserMeaning(lines: seq<string>, i: nat)
    requires i <= |lines|
    ensures NextCloser(lines, i).None? ==> forall j | i <= j < |lines| :: !Closes(lines[j])
    ensures NextCloser(lines, i).Some? ==>
              Closes(lines[NextCloser(lines, i).value]) && forall j | i <= j < NextCloser(lines, i).value :: !Closes(lines[j])
    decreases |lines| - i
  {
    hide Closes;
    if i < |lines| && !Closes(lines[i]) {
      NextCloserMeaning(lines, i + 1);
    }
  }

  /** The next block from a line on: the first opening line, and the first closing line after it. */
  ghost predicate IsNext(kind: string, lines: seq<string>, i: nat, b: Block) {
    && i < b.start <= b.stop < |lines|
    && Opens(kind, lines[b.start - 1]) && (forall j | i <= j < b.start - 1 :: !Opens(kind, lines[j]))
    && Closes(lines[b.stop]) && (forall j | b.start <= j < b.stop :: !Closes(lines[j]))
  }

  /** The search moves on past a line that opens no block. */
  lemma BlocksGoOn(kind: string, lines: seq<string>, i: nat)
    requires i < |lines| && !(Opens(kind, lines[i]) && i + 1 < |lines|)
    ensures Blocks(kind, lines, i) == Blocks(kind, lines, i + 1)
  {
    hide Opens, Closes, NextCloser;
  }

  /** The search finds a block where one opens and closes. */
  lemma BlocksFind(kind: string, lines: seq<string>, i: nat, c: nat)
    requires i + 1 < |lines| && Opens(kind, lines[i]) && NextCloser(lines, i + 1) == Some(c)
    ensures c < |lines| && Blocks(kind, lines, i) == [Block(i + 1, c)] + Blocks(kind, lines, c + 1)
  {
    hide Opens, Closes, NextCloser;
  }

  lemma CountFound(kind: string, lines: seq<string>, i: nat, c: nat)
    requires i + 1 < |lines| && Opens(kind, lines[i]) && NextCloser(lines, i + 1) == Some(c)
    ensures c < |lines| && |Blocks(kind, lines, i)| == 1 + |Blocks(kind, lines, c + 1)|
  {
    hide *;
    BlocksFind(kind, lines, i, c);
  }

  lemma BlocksEnd(kind: string, lines: seq<string>, i: nat)
    requires i + 1 < |lines| && Opens(kind, lines[i]) && NextCloser(lines, i + 1) == None
    ensures Blocks(kind, lines, i) == []
  {
    hide Opens, Closes, NextCloser;
  }

  lemma NextMovesOn(kind: string, lines: seq<string>, i: nat, b: Block)
    requires i < |lines| && !(Opens(kind, lines[i]) && i + 1 < |lines|)
    ensures IsNext(kind, lines, i, b) <==> IsNext(kind, lines, i + 1, b)
  {
    hide Opens, Closes;
  }

  lemma NextIsHere(kind: string, lines: seq<string>, i: nat)
    requires i + 1 < |lines| && Opens(kind, lines[i])
    ensures NextCloser(lines, i + 1).Some? ==> IsNext(kind, lines, i, Block(i + 1, NextCloser(lines, i + 1).value))
    ensures NextCloser(lines, i + 1).None? ==> forall b :: !IsNext(kind, lines, i, b)
  {
    hide Opens, Closes, NextCloser;
    NextCloserMeaning(lines, i + 1);
  }

  lemma {:induction false} BlocksMeaning(kind: string, lines: seq<string>, i: nat)
    requires i <= |lines|
    ensures Blocks(kind, lines, i) != [] ==>
              var b := Blocks(kind, lines, i)[0];
              IsNext(kind, lines, i, b) && Blocks(kind, lines, i) == [b] + Blocks(kind, lines, b.stop + 1)
    ensures Blocks(kind, lines, i) == [] ==> forall b :: !IsNext(kind, lines, i, b)
    decreases |lines| - i
  {
    if i < |lines| {
      hide Closes, Opens, Blocks, NextCloser, IsNext;
      if Opens(kind, lines[i]) && i + 1 < |lines| {
        if NextCloser(lines, i + 1).Some? {
          BlocksFind(kind, lines, i, NextCloser(lines, i + 1).value);
        } else {
          BlocksEnd(kind, lines, i);
        }
        NextIsHere(kind, lines, i);
        NextIsInside(kind, lines, i);
      } else {
        BlocksGoOn(kind, lines, i);
        BlocksMeaning(kind, lines, i + 1);
        forall b: Block ensures IsNext(kind, lines, i, b) <==> IsNext(kind, lines, i + 1, b) {
          NextMovesOn(kind, lines, i, b);
        }
        NextIsInside(kind, lines, i);
      }
    }
  }

  lemma NextIsInside(kind: string, lines: seq<string>, i: nat)
    ensures forall b | IsNext(kind, lines, i, b) :: b.stop < |lines|
  {}

  lemma NextIsUnique(kind: string, lines: seq<string>, i: nat, a: Block, b: Block)
    requires IsNext(kind, lines, i, a) && IsNext(kind, lines, i, b)
    ensures a == b
  {
    hide Closes, Opens;
    assert a.start == b.start;
  }

  lemma BlocksStartWith(kind: string, lines: seq<string>, i: nat, b: Block)
    requires i <= |lines| && IsNext(kind, lines, i, b)
    ensures Blocks(kind, lines, i) == [b] + Blocks(kind, lines, b.stop + 1)
  {
    hide Closes, Opens, Blocks, IsNext;
    BlocksMeaning(kind, lines, i);
    NextIsUnique(kind, lines, i, Blocks(kind, lines, i)[0], b);
  }

  /** The lines from a position on. */
  predicate Suffix(all: seq<string>, p: nat, rest: seq<string>) {
    p <= |all| && all[p..] == rest
  }

  lemma SuffixAt(all: seq<string>, p: nat, rest: seq<string>, k: nat)
    requires Suffix(all, p, rest) && k <= |rest|
    ensures |all| == p + |rest|
    ensures k < |rest| ==> all[p + k] == rest[k]
  {}

  lemma {:induction false} CloserOfSuffix(all: seq<string>, p: nat, rest: seq<string>, k: nat)
    requires Suffix(all, p, rest) && k <= |rest| && p + k <= |all|
    ensures NextCloser(all, p + k) == match NextCloser(rest, k)
                                      case None => None
                                      case Some(c) => Some(p + c)
    decreases |rest| - k
  {
    SuffixAt(all, p, rest, k);
    hide Suffix, Closes;
    if k < |rest| {
      CloserOfSuffix(all, p, rest, k + 1);
    }
  }

  /** What comes before a line does not matter to the blocks after it. */
  lemma {:induction false} BlocksOfSuffix(kind: string, all: seq<string>, p: nat, rest: seq<string>, k: nat)
    requires Suffix(all, p, rest) && k <= |rest| && p + k <= |all|
    ensures |Blocks(kind, all, p + k)| == |Blocks(kind, rest, k)|
    decreases |rest| - k
  {
    hide *;
    SuffixAt(all, p, rest, k);
    var q := p + k;
    if k == |rest| {
      NoBlocksAtEnd(kind, all);
      NoBlocksAtEnd(kind, rest);
    } else if Opens(kind, rest[k]) && k + 1 < |rest| {
      CloserOfSuffix(all, p, rest, k + 1);
      if NextCloser(rest, k + 1).None? {
        BlocksEnd(kind, rest, k);
        BlocksEnd(kind, all, q);
      } else {
        var c := NextCloser(rest, k + 1).value;
        CountFound(kind, rest, k, c);
        CountFound(kind, all, q, p + c);
        BlocksOfSuffix(kind, all, p, rest, c + 1);
      }
    } else {
      BlocksGoOn(kind, rest, k);
      BlocksGoOn(kind, all, q);
      BlocksOfSuffix(kind, all, p, rest, k + 1);
    }
  }

  lemma NoBlocksAtEnd(kind: string, lines: seq<string>)
    ensures Blocks(kind, lines, |lines|) == []
  {}

  // --------------------------------------------------------------------- one block of lines

  /** Lines around one fenced payload. */
  function Fenced(pre: seq<string>, opener: string, body: seq<string>, closer: string, post: seq<string>): seq<string> {
    pre + [opener] + body + [closer] + post
  }

  lemma FencedParts(pre: seq<string>, opener: string, body: seq<string>, closer: string, post: seq<string>)
    ensures var lines, p, n := Fenced(pre, opener, body, closer, post), |pre|, |body|;
            && |lines| == p + n + 2 + |post| && lines[p] == opener && lines[p + 1 + n] == closer
            && lines[..p + 1] == pre + [opener] && lines[p + 1..p + 1 + n] == body && lines[p + n + 2..] == post
            && (forall i | 0 <= i < p :: lines[i] == pre[i]) && (forall i | 0 <= i < n :: lines[p + 1 + i] == body[i])
  {}

  /** The block is found when no line before it opens one and no line of the payload closes it. */
  lemma FoundBlock(kind: string, pre: seq<string>, opener: string, body: seq<string>, closer: string, post: seq<string>)
    requires Opens(kind, opener) && Closes(closer) && NoOpener(kind, pre) && NoCloser(body) && Blocks(kind, post, 0) == []
    ensures Blocks(kind, Fenced(pre, opener, body, closer, post), 0) == [Block(|pre| + 1, |pre| + 1 + |body|)]
  {
    var lines, b := Fenced(pre, opener, body, closer, post), Block(|pre| + 1, |pre| + 1 + |body|);
    FencedParts(pre, opener, body, closer, post);
    hide Closes, Opens, Blocks, Fenced;
    assert IsNext(kind, lines, 0, b);
    BlocksStartWith(kind, lines, 0, b);
    BlocksOfSuffix(kind, lines, b.stop + 1, post, 0);
  }

  /** An opening line before the block spoils it: there are two blocks, or the one found is longer. */
  lemma EarlierOpener(kind: string, pre: seq<string>, opener: string, body: seq<string>, closer: string, post: seq<string>)
    requires Opens(kind, opener) && Closes(closer) && !NoOpener(kind, pre) && NoCloser(body)
    ensures var bs := Blocks(kind, Fenced(pre, opener, body, closer, post), 0);
            |bs| >= 2 || (|bs| == 1 && bs[0].stop - bs[0].start > |body|)
  {
    var lines := Fenced(pre, opener, body, closer, post);
    FencedParts(pre, opener, body, closer, post);
    OpenerIsNoCloser(kind, opener);
    var j :| 0 <= j < |pre| && Opens(kind, pre[j]);
    assert Opens(kind, lines[j]);
    hide Closes, Opens, Blocks, Fenced;
    var b := FirstFrom(kind, lines, 0, j, |pre| + 1 + |body|);
    BlocksStartWith(kind, lines, 0, b);
    if b.stop < |pre| {
      var second := FirstFrom(kind, lines, b.stop + 1, |pre|, |pre| + 1 + |body|);
      BlocksStartWith(kind, lines, b.stop + 1, second);
    } else {
      assert b.stop != |pre|;
      assert forall i | |pre| + 1 <= i < |pre| + 1 + |body| :: !Closes(lines[i]) by {
        assert forall i | 0 <= i < |body| :: lines[|pre| + 1 + i] == body[i];
        forall i | |pre| + 1 <= i < |pre| + 1 + |body| ensures !Closes(lines[i]) {
          assert lines[i] == body[i - |pre| - 1];
        }
      }
    }
  }

  /** An opening line with a closing line after it makes a block that starts no later. */
  lemma FirstFrom(kind: string, lines: seq<string>, i: nat, open: nat, close: nat) returns (b: Block)
    requires i <= open < close < |lines| && Opens(kind, lines[open]) && Closes(lines[close])
    ensures IsNext(kind, lines, i, b) && b.start <= open + 1 && b.stop <= close
  {
    hide Closes, Opens;
    var o := i;
    while !Opens(kind, lines[o])
      decreases open - o
      invariant i <= o <= open && forall j | i <= j < o :: !Opens(kind, lines[j])
    {
      o := o + 1;
    }
    var c := o + 1;
    while !Closes(lines[c])
      decreases close - c
      invariant o + 1 <= c <= close && forall j | o + 1 <= j < c :: !Closes(lines[j])
    {
      c := c + 1;
    }
    b := Block(o + 1, c);
  }

  /** The lines of the only block, if there is one. */
  function OnlyBody(kind: string, lines: seq<string>): Option<seq<string>> {
    var bs := Blocks(kind, lines, 0);
    if |bs| != 1 then None
    else
      FirstIsInside(kind, lines, 0);
      Some(lines[bs[0].start..bs[0].stop])
  }

  /** Reading back fenced lines: the payload comes back if and only if no line before it opens a block
      of the kind and no line of it is a closing fence. */
  lemma ReadsBackIff(kind: string, pre: seq<string>, opener: string, body: seq<string>, closer: string, post: seq<string>)
    requires Opens(kind, opener) && Closes(closer) && Blocks(kind, post, 0) == []
    ensures OnlyBody(kind, Fenced(pre, opener, body, closer, post)) == Some(body) <==> NoOpener(kind, pre) && NoCloser(body)
  {
    var lines := Fenced(pre, opener, body, closer, post);
    if NoOpener(kind, pre) && NoCloser(body) {
      FoundBlock(kind, pre, opener, body, closer, post);
      FencedParts(pre, opener, body, closer, post);
    } else if NoCloser(body) {
      EarlierOpener(kind, pre, opener, body, closer, post);
      FirstIsInside(kind, lines, 0);
    } else {
      BodyHasNoCloser(kind, lines);
      hide OnlyBody;
    }
  }

  lemma BodyHasNoCloser(kind: string, lines: seq<string>)
    ensures OnlyBody(kind, lines).Some? ==> NoCloser(OnlyBody(kind, lines).value)
  {
    BlocksMeaning(kind, lines, 0);
    hide Closes, Opens, Blocks;
    if OnlyBody(kind, lines).Some? {
      var b := Blocks(kind, lines, 0)[0];
      assert IsNext(kind, lines, 0, b);
    }
  }

  // ---------------------------------------------------------------------------- texts

  /** A payload as the YAML printer ends it. */
  predicate Terminated(payload: string) {
    payload == "" || payload[|payload| - 1] == '\n'
  }

  lemma TextAppend(a: seq<string>, b: seq<string>)
    requires b != []
    ensures Text(a + b) == Chars(a) + Text(b)
  {
    assert (a + b)[..|a + b| - 1] == a + b[..|b| - 1];
    CharsAppend(a, b[..|b| - 1]);
  }

  lemma {:induction false} FeedIsFound(text: string)
    requires text != "" && text[|text| - 1] == '\n'
    ensures FirstFeed(text) < |text|
  {
    if text[0] != '\n' {
      FeedIsFound(text[1..]);
    }
  }

  lemma {:induction false} TerminatedEndsEmpty(payload: string)
    requires Terminated(payload)
    ensures Split(payload)[|Split(payload)| - 1] == ""
    decreases |payload|
  {
    if payload != "" {
      FeedIsFound(payload);
      var rest := payload[FirstFeed(payload) + 1..];
      assert rest != "" ==> rest[|rest| - 1] == payload[|payload| - 1];
      TerminatedEndsEmpty(rest);
    }
  }

  /** The lines of a terminated payload. */
  function PayloadLines(payload: string): seq<string> {
    Split(payload)[..|Split(payload)| - 1]
  }

  lemma PayloadLinesMeaning(payload: string)
    requires Terminated(payload)
    ensures Chars(PayloadLines(payload)) == payload && OneLiners(PayloadLines(payload))
    ensures NoCloser(PayloadLines(payload)) <==> NoCloser(Split(payload))
  {
    SplitIsText(payload);
    TerminatedEndsEmpty(payload);
    var all, lines := Split(payload), PayloadLines(payload);
    hide Split, Terminated, Chars;
    LastIsNoCloser(lines);
    assert all == lines + [""];
  }

  lemma LastIsNoCloser(lines: seq<string>)
    ensures NoCloser(lines + [""]) <==> NoCloser(lines)
  {
    assert !Closes("");
    hide Closes;
    assert forall i | 0 <= i < |lines| :: (lines + [""])[i] == lines[i];
  }

  lemma CharsAreLines(a: seq<string>, b: seq<string>)
    requires OneLiners(a) && OneLiners(b) && Chars(a) == Chars(b)
    ensures a == b
  {
    TextAppend(a, [""]);
    TextAppend(b, [""]);
    TextIsSplit(a + [""]);
    TextIsSplit(b + [""]);
    assert a == (a + [""])[..|a|] && b == (b + [""])[..|b|];
  }

  /** Reading a text gives the characters of the only block's lines. */
  lemma ReadIsOnlyBody(text: string, lines: seq<string>, kind: string)
    requires lines != [] && OneLiners(lines) && text == Text(lines)
    ensures ReadPayload(text, kind).Some? <==> OnlyBody(kind, lines).Some?
    ensures OnlyBody(kind, lines).Some? ==> ReadPayload(text, kind).value == Chars(OnlyBody(kind, lines).value)
  {
    TextIsSplit(lines);
    hide Text, Chars, Split, Blocks;
    if OnlyBody(kind, lines).Some? {
      var b := Blocks(kind, lines, 0)[0];
      FirstIsInside(kind, lines, 0);
      RangeIsInText(lines, b.start, b.stop);
    }
  }

  lemma ReadsIffLines(kind: string, pre: seq<string>, opener: string, payload: string, closer: string, post: seq<string>)
    requires Opens(kind, opener) && Closes(closer) && Blocks(kind, post, 0) == [] && Terminated(payload)
    requires OneLiners(pre) && '\n' !in opener && '\n' !in closer && OneLiners(post)
    ensures ReadPayload(Text(Fenced(pre, opener, PayloadLines(payload), closer, post)), kind) == Some(payload) <==>
              NoOpener(kind, pre) && NoCloser(Split(payload))
  {
    var body := PayloadLines(payload);
    var lines := Fenced(pre, opener, body, closer, post);
    PayloadLinesMeaning(payload);
    assert OneLiners(lines);
    ReadIsOnlyBody(Text(lines), lines, kind);
    ReadsBackIff(kind, pre, opener, body, closer, post);
    hide Text, Fenced, Blocks, Split, NoCloser, NoOpener, PayloadLines;
    if OnlyBody(kind, lines).Some? {
      var got := OnlyBody(kind, lines).value;
      assert OneLiners(got) by { BodyIsOneLiners(kind, lines); }
      if Chars(got) == Chars(body) {
        CharsAreLines(got, body);
      }
    }
  }

  lemma BodyIsOneLiners(kind: string, lines: seq<string>)
    requires OneLiners(lines) && OnlyBody(kind, lines).Some?
    ensures OneLiners(OnlyBody(kind, lines).value)
  {
    FirstIsInside(kind, lines, 0);
  }

  /** The lines of a document taken apart at its only block. */
  lemma TakeLinesApart(lines: seq<string>, kind: string)
    returns (pre: seq<string>, opener: string, body: seq<string>, closer: string, post: seq<string>)
    requires |Blocks(kind, lines, 0)| == 1 && OneLiners(lines)
    ensures Opens(kind, opener) && Closes(closer) && Blocks(kind, post, 0) == [] && NoOpener(kind, pre)
    ensures OneLiners(pre) && '\n' !in opener && '\n' !in closer && OneLiners(post)
    ensures var b := Blocks(kind, lines, 0)[0];
            b.start <= b.stop < |lines| && lines[..b.start] == pre + [opener] && lines[b.stop..] == [closer] + post
  {
    var b := Blocks(kind, lines, 0)[0];
    BlocksMeaning(kind, lines, 0);
    assert IsNext(kind, lines, 0, b);
    hide Opens, Closes, Blocks;
    pre, opener, body, closer, post := lines[..b.start - 1], lines[b.start - 1], lines[b.start..b.stop], lines[b.stop], lines[b.stop + 1..];
    BlocksOfSuffix(kind, lines, b.stop + 1, post, 0);
  }

  /** A document taken apart at its only block. */
  lemma TakeApart(text: string, kind: string)
    returns (pre: seq<string>, opener: string, body: seq<string>, closer: string, post: seq<string>)
    requires PayloadRange(text, kind).Some?
    ensures Opens(kind, opener) && Closes(closer) && Blocks(kind, post, 0) == [] && NoOpener(kind, pre)
    ensures OneLiners(pre) && '\n' !in opener && '\n' !in closer && OneLiners(post)
    ensures PayloadRange(text, kind).value.0 == |Chars(pre + [opener])| <= PayloadRange(text, kind).value.1 <= |text|
    ensures text[..PayloadRange(text, kind).value.0] == Chars(pre + [opener])
    ensures text[PayloadRange(text, kind).value.1..] == Text([closer] + post)
  {
    var lines := Split(text);
    SplitIsText(text);
    hide Opens, Closes, Chars, Text, Split, Blocks, NoOpener, OneLiners;
    pre, opener, body, closer, post := TakeLinesApart(lines, kind);
    var b := Blocks(kind, lines, 0)[0];
    RangeIsInText(lines, b.start, b.stop);
  }

  /** Replacing the payload of a document with exactly one block: everything before and after stays,
      and the new payload reads back if and only if it has no closing fence line of its own. */
  lemma ReplaceRoundTrip(text: string, kind: string, payload: string)
    requires PayloadRange(text, kind).Some? && Terminated(payload)
    ensures ReplacePayload(text, kind, payload).Some?
    ensures var after := ReplacePayload(text, kind, payload).value;
            && (ReadPayload(after, kind) == Some(payload) <==> NoCloser(Split(payload)))
            && (NoCloser(Split(payload)) ==>
                  && PayloadRange(after, kind).Some?
                  && var (start, stop), (s, e) := PayloadRange(text, kind).value, PayloadRange(after, kind).value;
                     s == start <= stop <= |text| && e == start + |payload| <= |after|
                     && after[..s] == text[..start] && after[e..] == text[stop..])
  {
    var pre, opener, body, closer, post := TakeApart(text, kind);
    var lines := Fenced(pre, opener, PayloadLines(payload), closer, post);
    var after := ReplacePayload(text, kind, payload).value;
    var (start, stop) := PayloadRange(text, kind).value;
    PayloadLinesMeaning(payload);
    FencedText(pre, opener, PayloadLines(payload), closer, post);
    hide Text, Chars, Opens, Closes, Blocks, PayloadRange, Split, NoCloser, NoOpener, Fenced, PayloadLines, ReadPayload;
    assert after == Text(lines);
    ReadsIffLines(kind, pre, opener, payload, closer, post);
    if NoCloser(Split(payload)) {
      RangeOfFenced(kind, pre, opener, payload, closer, post);
    }
  }

  lemma FencedText(pre: seq<string>, opener: string, body: seq<string>, closer: string, post: seq<string>)
    ensures Text(Fenced(pre, opener, body, closer, post)) == Chars(pre + [opener]) + Chars(body) + Text([closer] + post)
  {
    assert Fenced(pre, opener, body, closer, post) == ((pre + [opener]) + body) + ([closer] + post);
    TextAppend((pre + [opener]) + body, [closer] + post);
    CharsAppend(pre + [opener], body);
  }

  lemma RangeOfFenced(kind: string, pre: seq<string>, opener: string, payload: string, closer: string, post: seq<string>)
    requires Opens(kind, opener) && Closes(closer) && Blocks(kind, post, 0) == [] && Terminated(payload)
    requires OneLiners(pre) && '\n' !in opener && '\n' !in closer && OneLiners(post)
    requires NoOpener(kind, pre) && NoCloser(Split(payload))
    ensures PayloadRange(Text(Fenced(pre, opener, PayloadLines(payload), closer, post)), kind)
            == Some((|Chars(pre + [opener])|, |Chars(pre + [opener])| + |payload|))
  {
    hide *;
    var body := PayloadLines(payload);
    var lines := Fenced(pre, opener, body, closer, post);
    PayloadLinesMeaning(payload);
    FencedOneLiners(pre, opener, body, closer, post);
    FoundBlock(kind, pre, opener, body, closer, post);
    FencedStart(pre, opener, body, closer, post);
    RangeOfBlock(lines, kind, Block(|pre| + 1, |pre| + 1 + |body|));
    CharsAppend(pre + [opener], body);
  }

  lemma FencedStart(pre: seq<string>, opener: string, body: seq<string>, closer: string, post: seq<string>)
    ensures var lines := Fenced(pre, opener, body, closer, post);
            && |pre| + 1 + |body| < |lines| && lines[..|pre| + 1] == pre + [opener]
            && lines[..|pre| + 1 + |body|] == (pre + [opener]) + body
  {}

  lemma RangeOfBlock(lines: seq<string>, kind: string, b: Block)
    requires lines != [] && OneLiners(lines) && Blocks(kind, lines, 0) == [b] && b.start <= b.stop < |lines|
    ensures PayloadRange(Text(lines), kind) == Some((|Chars(lines[..b.start])|, |Chars(lines[..b.stop])|))
  {
    TextIsSplit(lines);
    hide Text, Chars, Split, Blocks;
  }

  lemma FencedOneLiners(pre: seq<string>, opener: string, body: seq<string>, closer: string, post: seq<string>)
    requires OneLiners(pre) && '\n' !in opener && OneLiners(body) && '\n' !in closer && OneLiners(post)
    ensures OneLiners(Fenced(pre, opener, body, closer, post))
  {}

  /** A newly generated document reads back if and only if its payload has no closing fence line and
      no line of its title after the first opens a block of the kind. */
  lemma NewDocumentRoundTrip(title: string, kind: string, payload: string)
    requires Terminated(payload) && '\n' !in kind
    ensures ReadPayload(NewDocument(title, kind, payload), kind) == Some(payload) <==>
              NoOpener(kind, Split(title)[1..]) && NoCloser(Split(payload))
  {
    var head := Split(title);
    var opener, closer := "```adf-" + kind, "```";
    var pre := (["# " + head[0]] + head[1..]) + ["", NOTICE, ""];
    TitleLines(title, kind, payload);
    HeadLines(title, kind);
    FenceLines(kind);
    hide Opens, Closes, Blocks, Text, Split, PayloadLines, NOTICE, NoOpener, NoCloser, OneLiners, Fenced, ReadPayload, NewDocument;
    ReadsIffLines(kind, pre, opener, payload, closer, [""]);
  }

  lemma FenceLines(kind: string)
    requires '\n' !in kind
    ensures Opens(kind, "```adf-" + kind) && Closes("```") && Blocks(kind, [""], 0) == []
    ensures '\n' !in "```adf-" + kind && '\n' !in "```" && OneLiners([""])
  {
    var opener, closer := "```adf-" + kind, "```";
    assert opener[|opener|..] == "" && closer[3..] == "";
    assert !Opens(kind, "");
  }

  lemma HeadLines(title: string, kind: string)
    ensures var head := Split(title);
            var pre := (["# " + head[0]] + head[1..]) + ["", NOTICE, ""];
            OneLiners(pre) && (NoOpener(kind, pre) <==> NoOpener(kind, head[1..]))
  {
    hide *;
    var head := Split(title);
    SplitIsText(title);
    NoticeIsALine(kind);
    NoEmptyOpener(kind);
    AppendLines(kind, ["# " + head[0]] + head[1..], ["", NOTICE, ""]);
    AppendLines(kind, ["# " + head[0]], head[1..]);
    TitleIsALine(kind, head);
    ThreeLines(kind, "", NOTICE, "");
  }

  lemma AppendLines(kind: string, a: seq<string>, b: seq<string>)
    ensures OneLiners(a + b) <==> OneLiners(a) && OneLiners(b)
    ensures NoOpener(kind, a + b) <==> NoOpener(kind, a) && NoOpener(kind, b)
  {
    hide Opens;
    var all := a + b;
    assert forall i | 0 <= i < |a| :: all[i] == a[i];
    assert forall i | 0 <= i < |b| :: all[|a| + i] == b[i];
  }

  lemma ThreeLines(kind: string, a: string, b: string, c: string)
    ensures OneLiners([a, b, c]) <==> '\n' !in a && '\n' !in b && '\n' !in c
    ensures NoOpener(kind, [a, b, c]) <==> !Opens(kind, a) && !Opens(kind, b) && !Opens(kind, c)
  {
    hide Opens;
    var all := [a, b, c];
    assert all[0] == a && all[1] == b && all[2] == c;
  }

  lemma TitleIsALine(kind: string, head: seq<string>)
    requires head != [] && OneLiners(head)
    ensures OneLiners(["# " + head[0]]) && NoOpener(kind, ["# " + head[0]]) && OneLiners(head[1..])
  {
    var first := "# " + head[0];
    assert first[0] == '#';
    assert !Opens(kind, first);
    assert '\n' !in first;
  }

  lemma NoEmptyOpener(kind: string)
    ensures !Opens(kind, "") && '\n' !in ""
  {}

  lemma NoticeIsALine(kind: string)
    ensures '\n' !in NOTICE && !Opens(kind, NOTICE)
  {
    assert '\n' !in NOTICE1 && '\n' !in NOTICE2;
    NoticeTail();
    assert NOTICE1[0] == 'T';
    hide NOTICE1, NOTICE2, NOTICE3, NOTICE4, NOTICE5;
    assert NOTICE[0] == 'T';
  }

  lemma NoticeTail()
    ensures '\n' !in NOTICE3 && '\n' !in NOTICE4 && '\n' !in NOTICE5
  {}

  lemma TitleLines(title: string, kind: string, payload: string)
    requires Terminated(payload)
    ensures var head := Split(title);
            NewDocument(title, kind, payload) ==
            Text(Fenced((["# " + head[0]] + head[1..]) + ["", NOTICE, ""], "```adf-" + kind, PayloadLines(payload), "```", [""]))
  {
    hide *;
    var head, opener, body := Split(title), "```adf-" + kind, PayloadLines(payload);
    var first := ["# " + head[0]] + head[1..];
    SplitIsText(title);
    PayloadLinesMeaning(payload);
    TitleChars(title, head);
    MiddleChars(opener);
    ClosingText();
    Glue("# " + title, NOTICE, opener, payload);
    FencedText(first + ["", NOTICE, ""], opener, body, "```", [""]);
    assert first + ["", NOTICE, ""] + [opener] == first + ["", NOTICE, "", opener];
    CharsAppend(first, ["", NOTICE, "", opener]);
    DocumentText(title, kind, payload);
  }

  lemma DocumentText(title: string, kind: string, payload: string)
    ensures NewDocument(title, kind, payload)
            == ("# " + title) + "\n\n" + NOTICE + "\n\n" + ("```adf-" + kind) + "\n" + payload + "```\n"
  {
    hide NOTICE;
    var a, b := "# " + title + "\n\n" + NOTICE + "\n\n", "\n" + payload + "```\n";
    assert a + "```adf-" + kind == a + ("```adf-" + kind);
  }

  lemma Glue(a: string, n: string, o: string, p: string)
    ensures a + "\n\n" + n + "\n\n" + o + "\n" + p + "```\n"
            == ((a + "\n") + ("\n" + n + "\n" + "\n" + o + "\n")) + p + "```\n"
  {
    assert "\n\n" == "\n" + "\n";
  }

  lemma TitleChars(title: string, head: seq<string>)
    requires head != [] && title == Text(head)
    ensures Chars(["# " + head[0]] + head[1..]) == "# " + title + "\n"
  {
    var last := head[|head| - 1];
    assert head == head[..|head| - 1] + [last];
    CharsAppend(head[..|head| - 1], [last]);
    assert Chars([last]) == last + "\n";
    assert (["# " + head[0]] + head[1..])[1..] == head[1..];
    assert Chars(["# " + head[0]] + head[1..]) == "# " + Chars(head);
  }

  lemma MiddleChars(opener: string)
    ensures Chars(["", NOTICE, "", opener]) == "\n" + NOTICE + "\n" + "\n" + opener + "\n"
  {
    hide NOTICE;
    assert ["", NOTICE, "", opener] == [""] + ([NOTICE] + ([""] + [opener]));
    CharsAppend([""], [NOTICE] + ([""] + [opener]));
    CharsAppend([NOTICE], [""] + [opener]);
    CharsAppend([""], [opener]);
  }

  lemma ClosingText()
    ensures Text(["```"] + [""]) == "```\n"
  {
    assert (["```"] + [""])[..1] == ["```"];
    assert ["```"][1..] == [];
    assert Chars(["```"]) == "```" + "\n";
  }

  /** Concretely: a title whose second line opens a block of the kind spoils the document. */
  lemma SpoilingTitleIsNotReadBack(first: string, kind: string, payload: string)
    requires Terminated(payload) && '\n' !in kind && '\n' !in first
    ensures ReadPayload(NewDocument(first + "\n" + ("```adf-" + kind), kind, payload), kind) != Some(payload)
  {
    FenceLines(kind);
    hide *;
    var opener := "```adf-" + kind;
    TwoLines(first, opener);
    OpenerInTail(kind, [first, opener]);
    NewDocumentRoundTrip(first + "\n" + opener, kind, payload);
  }

  lemma TwoLines(a: string, b: string)
    requires '\n' !in a && '\n' !in b
    ensures Split(a + "\n" + b) == [a, b]
  {
    assert OneLiners([a, b]);
    assert [a, b][..1] == [a] && [a][1..] == [];
    assert Chars([a]) == a + "\n";
    assert Text([a, b]) == a + "\n" + b;
    hide Split, Text, Chars, OneLiners;
    TextIsSplit([a, b]);
  }

  lemma OpenerInTail(kind: string, lines: seq<string>)
    requires |lines| == 2 && Opens(kind, lines[1])
    ensures !NoOpener(kind, lines[1..])
  {
    hide Opens;
    assert lines[1..][0] == lines[1];
  }

  /** A record that YAML prints without a closing fence line is read back from the document it is
      written to: any document with exactly one block of its kind, or a new one with a one-line title. */
  lemma RecordRoundTrip(y: Yaml, v: Value, kind: string, existing: Option<string>)
    requires y.parse(y.print_(v)) == Some(v) && Terminated(y.print_(v)) && NoCloser(Split(y.print_(v)))
    requires v.At("id").Str? && '\n' !in kind
    requires existing.Some? ==> PayloadRange(existing.value, kind).Some?
    requires existing.None? ==> '\n' !in TitleOf(v).value
    ensures SerializeMarkdown(y, v, kind, existing).Some?
    ensures ParseMarkdown(y, SerializeMarkdown(y, v, kind, existing).value, kind) == Some(v)
  {
    if existing.Some? {
      ReplaceRoundTrip(existing.value, kind, y.print_(v));
      hide ReplacePayload, ReadPayload, Split, NoCloser, PayloadRange, Terminated;
    } else {
      var title := TitleOf(v).value;
      NoFeed(title);
      assert Split(title) == [title];
      assert NoOpener(kind, Split(title)[1..]);
      NewDocumentRoundTrip(title, kind, y.print_(v));
      hide NewDocument, ReadPayload, Split, NoCloser, Terminated;
    }
  }
}
