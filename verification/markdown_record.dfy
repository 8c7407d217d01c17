/** Records inside Markdown documents, from src/filesystem_project.rs: the payload of the one fenced
    `adf-<kind>` block is replaced in place and read back.  A document is read line by line;
    a block runs from an opening fence line to the first closing fence line after it, and a document
    that does not hold exactly one such block is refused.
  */
module MarkdownRecord {
  import opened Json

  // ------------------------------------------------------------------------ lines of a text

  /** Lines without their endings, each followed by a line feed. */
  function Chars(lines: seq<string>): string {
    if lines == [] then "" else lines[0] + "\n" + Chars(lines[1..])
  }

  function FirstFeed(text: string): (i: nat)
    ensures i <= |text| && '\n' !in text[..i] && (i < |text| ==> text[i] == '\n')
  {
    if text == "" || text[0] == '\n' then 0
    else
      var i := FirstFeed(text[1..]);
      assert text[..i + 1] == [text[0]] + text[1..][..i];
      i + 1
  }

  /** The lines of a text; the last one is what follows the last line feed. */
  function Split(text: string): (lines: seq<string>)
    ensures lines != []
    decreases |text|
  {
    var i := FirstFeed(text);
    if i == |text| then [text] else [text[..i]] + Split(text[i + 1..])
  }

  function Text(lines: seq<string>): string
    requires lines != []
  {
    Chars(lines[..|lines| - 1]) + lines[|lines| - 1]
  }

  predicate OneLiners(lines: seq<string>) {
    forall i | 0 <= i < |lines| :: '\n' !in lines[i]
  }

  lemma TextCons(line: string, rest: seq<string>)
    requires rest != []
    ensures Text([line] + rest) == line + "\n" + Text(rest)
  {
    var lines := [line] + rest;
    assert lines[..|lines| - 1] == [line] + rest[..|rest| - 1];
    assert lines[..|lines| - 1][1..] == rest[..|rest| - 1];
  }

  lemma OneLinersCons(line: string, rest: seq<string>)
    ensures OneLiners([line] + rest) <==> '\n' !in line && OneLiners(rest)
  {
    assert forall i | 0 <= i < |rest| :: ([line] + rest)[i + 1] == rest[i];
    assert ([line] + rest)[0] == line;
  }

  lemma SplitStep(text: string)
    ensures FirstFeed(text) == |text| ==> Split(text) == [text] && '\n' !in text
    ensures FirstFeed(text) < |text| ==>
              && Split(text) == [text[..FirstFeed(text)]] + Split(text[FirstFeed(text) + 1..])
              && '\n' !in text[..FirstFeed(text)]
              && text == text[..FirstFeed(text)] + "\n" + text[FirstFeed(text) + 1..]
  {
    hide FirstFeed;
    var i := FirstFeed(text);
    FeedCuts(text);
    if i == |text| {
      assert text[..|text|] == text;
    }
  }

  lemma FeedCuts(text: string)
    ensures FirstFeed(text) < |text| ==> text == text[..FirstFeed(text)] + "\n" + text[FirstFeed(text) + 1..]
  {
    hide FirstFeed;
    var i := FirstFeed(text);
    if i < |text| {
      assert text == text[..i] + [text[i]] + text[i + 1..];
    }
  }

  /** Splitting loses nothing. */
  lemma {:induction false} SplitIsText(text: string)
    ensures OneLiners(Split(text)) && Text(Split(text)) == text
    decreases |text|
  {
    SplitStep(text);
    var i := FirstFeed(text);
    if i == |text| {
      OneLine(text);
    } else {
      hide *;
      var line, rest := text[..i], text[i + 1..];
      SplitIsText(rest);
      TextCons(line, Split(rest));
      OneLinersCons(line, Split(rest));
    }
  }

  lemma OneLine(text: string)
    requires '\n' !in text
    ensures OneLiners([text]) && Text([text]) == text
  {
    assert [text][..0] == [];
  }

  lemma {:induction false} FeedAfterLine(line: string, rest: string)
    requires '\n' !in line
    ensures FirstFeed(line + "\n" + rest) == |line|
  {
    if line != "" {
      var text := line + "\n" + rest;
      assert text[1..] == line[1..] + "\n" + rest;
      assert text[0] == line[0];
      FeedAfterLine(line[1..], rest);
    }
  }

  lemma {:induction false} NoFeed(line: string)
    requires '\n' !in line
    ensures FirstFeed(line) == |line|
  {
    if line != "" {
      NoFeed(line[1..]);
    }
  }

  /** Lines are what their text is split into. */
  lemma {:induction false} TextIsSplit(lines: seq<string>)
    requires lines != [] && OneLiners(lines)
    ensures Split(Text(lines)) == lines
  {
    if |lines| == 1 {
      assert lines[..0] == [] && lines == [lines[0]];
      assert Text(lines) == lines[0];
      NoFeed(lines[0]);
    } else {
      var line, rest := lines[0], lines[1..];
      assert lines == [line] + rest;
      TextCons(line, rest);
      OneLinersCons(line, rest);
      hide Text, OneLiners, FirstFeed;
      TextIsSplit(rest);
      FeedAfterLine(line, Text(rest));
      var text := line + "\n" + Text(rest);
      assert text[..|line|] == line && text[|line| + 1..] == Text(rest);
    }
  }

  lemma {:induction false} CharsAppend(a: seq<string>, b: seq<string>)
    ensures Chars(a + b) == Chars(a) + Chars(b)
  {
    if a == [] {
      assert a + b == b;
    } else {
      CharsAppend(a[1..], b);
      assert (a + b)[1..] == a[1..] + b;
    }
  }

  // ------------------------------------------------------------------------------- fences

  predicate Padding(s: string) {
    forall i | 0 <= i < |s| :: s[i] == ' ' || s[i] == '\t'
  }

  /** A line that opens the block of a kind. */
  predicate Opens(kind: string, line: string) {
    var fence := "```adf-" + kind;
    fence <= line && Padding(line[|fence|..])
  }

  /** A bare closing fence. */
  predicate Closes(line: string) {
    "```" <= line && Padding(line[3..])
  }

  lemma OpenerIsNoCloser(kind: string, line: string)
    requires Opens(kind, line)
    ensures !Closes(line)
  {
    var fence := "```adf-" + kind;
    assert line[3] == fence[3] == 'a';
    assert |line| > 3 && line[3..][0] == 'a';
  }

  function NextCloser(lines: seq<string>, i: nat): Option<nat>
    requires i <= |lines|
    ensures NextCloser(lines, i).Some? ==> i <= NextCloser(lines, i).value < |lines|
    decreases |lines| - i
  {
    if i == |lines| then None
    else if Closes(lines[i]) then Some(i)
    else NextCloser(lines, i + 1)
  }

  /** A block by the lines of its payload: `lines[start..stop]`. */
  datatype Block = Block(start: nat, stop: nat)

  /** The blocks the expression matches from a line on: an opening line ends with a line feed, so it
      is not the last line; a block reaches to the next closing line and the search goes on after it. */
  function Blocks(kind: string, lines: seq<string>, i: nat): seq<Block>
    requires i <= |lines|
    decreases |lines| - i
  {
    if i == |lines| then []
    else if Opens(kind, lines[i]) && i + 1 < |lines| then
      match NextCloser(lines, i + 1)
      case None => []
      case Some(c) => [Block(i + 1, c)] + Blocks(kind, lines, c + 1)
    else Blocks(kind, lines, i + 1)
  }

  lemma {:induction false} FirstIsInside(kind: string, lines: seq<string>, i: nat)
    requires i <= |lines|
    ensures Blocks(kind, lines, i) != [] ==>
              var b := Blocks(kind, lines, i)[0]; i < b.start <= b.stop < |lines|
    decreases |lines| - i
  {
    hide Opens;
    if i < |lines| && !(Opens(kind, lines[i]) && i + 1 < |lines|) {
      FirstIsInside(kind, lines, i + 1);
    }
  }

  /** `markdown_payload_range`: the character range of the payload of the only block. */
  function PayloadRange(text: string, kind: string): Option<(nat, nat)> {
    var lines := Split(text);
    var bs := Blocks(kind, lines, 0);
    if |bs| != 1 then None
    else
      FirstIsInside(kind, lines, 0);
      Some((|Chars(lines[..bs[0].start])|, |Chars(lines[..bs[0].stop])|))
  }

  lemma RangeIsInText(lines: seq<string>, start: nat, stop: nat)
    requires lines != [] && start <= stop < |lines|
    ensures |Chars(lines[..start])| <= |Chars(lines[..stop])| <= |Text(lines)|
    ensures Text(lines)[..|Chars(lines[..start])|] == Chars(lines[..start])
    ensures Text(lines)[|Chars(lines[..start])|..|Chars(lines[..stop])|] == Chars(lines[start..stop])
    ensures Text(lines)[|Chars(lines[..stop])|..] == Text(lines[stop..])
  {
    var last := |lines| - 1;
    assert lines[..stop] == lines[..start] + lines[start..stop];
    CharsAppend(lines[..start], lines[start..stop]);
    assert lines[..last] == lines[..stop] + lines[stop..last];
    CharsAppend(lines[..stop], lines[stop..last]);
    assert lines[stop..][..last - stop] == lines[stop..last];
    assert Text(lines) == Chars(lines[..start]) + Chars(lines[start..stop]) + Text(lines[stop..]);
  }

  lemma PayloadRangeIsInText(text: string, kind: string)
    requires PayloadRange(text, kind).Some?
    ensures var (start, stop) := PayloadRange(text, kind).value; start <= stop <= |text|
  {
    var lines := Split(text);
    var b := Blocks(kind, lines, 0)[0];
    FirstIsInside(kind, lines, 0);
    SplitIsText(text);
    RangeIsInText(lines, b.start, b.stop);
  }

  function ReadPayload(text: string, kind: string): Option<string> {
    match PayloadRange(text, kind)
    case None => None
    case Some(range) =>
      PayloadRangeIsInText(text, kind);
      Some(text[range.0..range.1])
  }

  /** The Markdown branch of `serialize_record` for an existing document. */
  function ReplacePayload(text: string, kind: string, payload: string): Option<string> {
    match PayloadRange(text, kind)
    case None => None
    case Some(range) =>
      PayloadRangeIsInText(text, kind);
      Some(text[..range.0] + payload + text[range.1..])
  }

  const NOTICE := NOTICE1 + NOTICE2 + NOTICE3 + NOTICE4 + NOTICE5
  const NOTICE1 := "This document is owned by "
  const NOTICE2 := "the project. Human-readable "
  const NOTICE3 := "rationale, examples, and "
  const NOTICE4 := "diagrams may be added "
  const NOTICE5 := "outside the structured block."

  /** The Markdown branch of `serialize_record` for a new document. */
  function NewDocument(title: string, kind: string, payload: string): string {
    "# " + title + "\n\n" + NOTICE + "\n\n" + "```adf-" + kind + "\n" + payload + "```\n"
  }

  // ----------------------------------------------------------------------------- records

  /** The YAML printer and reader, which are outside this model. */
  datatype Yaml = Yaml(print_: Value -> string, parse: string -> Option<Value>)

  function TitleOf(v: Value): Option<string> {
    if v.At("title").Str? then v.At("title").AsStr() else v.At("id").AsStr()
  }

  /** `serialize_record` for Markdown. */
  function SerializeMarkdown(y: Yaml, v: Value, kind: string, existing: Option<string>): Option<string> {
    match existing
    case Some(text) => ReplacePayload(text, kind, y.print_(v))
    case None => if TitleOf(v).None? then None else Some(NewDocument(TitleOf(v).value, kind, y.print_(v)))
  }

  /** `parse_markdown_record` */
  function ParseMarkdown(y: Yaml, text: string, kind: string): Option<Value> {
    match ReadPayload(text, kind)
    case None => None
    case Some(payload) =>
      match y.parse(payload)
      case None => None
      case Some(v) => if v.At("id").Str? then Some(v) else None
  }
}
