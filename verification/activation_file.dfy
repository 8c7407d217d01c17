/** The activation file of src/binary_install.rs: two release tags on two lines.  It is printed by
    `publish_activation` and read back by `read_activation` and by the launcher script.
  */
module ActivationFile {
  import opened Json

  /** The tags the file names; both are missing when there is no file. */
  datatype Activation = Activation(current: Option<string>, previous: Option<string>)

  datatype ReadError = EmptyFile | ExtraLines | UnsafeTag(tag: string)

  // -------------------------------------------------------------------------- tags

  predicate Alphanumeric(c: char) {
    '0' <= c <= '9' || 'a' <= c <= 'z' || 'A' <= c <= 'Z'
  }

  /** `validate_tag` */
  predicate ValidTag(tag: string) {
    && "framework-" <= tag
    && Alphanumeric(tag[0])
    && forall i | 1 <= i < |tag| :: Alphanumeric(tag[i]) || tag[i] in {'.', '_', '-'}
  }

  lemma TagsStayOnOneLine(tag: string)
    requires ValidTag(tag)
    ensures tag != "" && '\n' !in tag && tag[|tag| - 1] != '\r'
  {
    forall i | 0 <= i < |tag| ensures tag[i] != '\n' && tag[i] != '\r' {
      assert Alphanumeric(tag[i]) || tag[i] in {'.', '_', '-'};
    }
  }

  // ------------------------------------------------------------------------- lines

  function Newline(s: string): Option<nat>
    ensures Newline(s).Some? ==> Newline(s).value < |s|
  {
    if s == "" then None
    else if s[0] == '\n' then Some(0)
    else match Newline(s[1..])
      case None => None
      case Some(i) => Some(i + 1)
  }

  function StripReturn(s: string): string {
    if s != "" && s[|s| - 1] == '\r' then s[..|s| - 1] else s
  }

  /** Rust's `str::lines`: the last line may lack its ending, a carriage return before a line
      feed belongs to the ending. */
  function Lines(s: string): seq<string>
    decreases |s|
  {
    if s == "" then []
    else match Newline(s)
      case None => [s]
      case Some(i) => [StripReturn(s[..i])] + Lines(s[i + 1..])
  }

  lemma {:induction false} NewlineAfter(line: string, rest: string)
    requires '\n' !in line
    ensures Newline(line + "\n" + rest) == Some(|line|)
  {
    var s := line + "\n" + rest;
    if line != "" {
      assert s[0] == line[0];
      assert s[1..] == line[1..] + "\n" + rest;
      NewlineAfter(line[1..], rest);
    }
  }

  lemma LinesCons(line: string, rest: string)
    requires '\n' !in line && (line != "" ==> line[|line| - 1] != '\r')
    ensures Lines(line + "\n" + rest) == [line] + Lines(rest)
  {
    var s := line + "\n" + rest;
    NewlineAfter(line, rest);
    assert s[..|line|] == line && s[|line| + 1..] == rest;
  }

  // ----------------------------------------------------------------- print and read

  function Print(current: string, previous: Option<string>): string {
    current + "\n" + (if previous.Some? then previous.value else "") + "\n"
  }

  /** `read_activation` */
  function Read(file: Option<string>): Result<Activation, ReadError> {
    if file.None? then Ok(Activation(None, None))
    else
      var lines := Lines(file.value);
      if lines == [] then Err(EmptyFile)
      else if |lines| > 2 then Err(ExtraLines)
      else if !ValidTag(lines[0]) then Err(UnsafeTag(lines[0]))
      else
        var previous := if |lines| == 2 then lines[1] else "";
        if previous != "" && !ValidTag(previous) then Err(UnsafeTag(previous))
        else Ok(Activation(Some(lines[0]), if previous == "" then None else Some(previous)))
  }

  /** Reading a published activation returns exactly the two tags that were written. */
  lemma ReadPublished(current: string, previous: Option<string>)
    requires ValidTag(current) && (previous.Some? ==> ValidTag(previous.value))
    ensures Read(Some(Print(current, previous))) == Ok(Activation(Some(current), previous))
  {
    var second := if previous.Some? then previous.value else "";
    TagsStayOnOneLine(current);
    if previous.Some? {
      TagsStayOnOneLine(second);
    }
    assert Print(current, previous) == current + "\n" + (second + "\n" + "");
    LinesCons(current, second + "\n" + "");
    LinesCons(second, "");
  }

  /** Whatever is read is valid, and publishing it again reads the same. */
  lemma ReadIsPublishable(file: Option<string>)
    requires Read(file).Ok? && Read(file).value.current.Some?
    ensures var a := Read(file).value;
            && ValidTag(a.current.value) && (a.previous.Some? ==> ValidTag(a.previous.value))
            && Read(Some(Print(a.current.value, a.previous))) == Read(file)
  {
    var a := Read(file).value;
    ReadPublished(a.current.value, a.previous);
  }

  /** What the launcher's `read -r` takes from the file: everything before the first line feed. */
  function LauncherVersion(text: string): string {
    match Newline(text)
    case None => text
    case Some(i) => text[..i]
  }

  /** The launcher starts the current release. */
  lemma LauncherStartsCurrent(current: string, previous: Option<string>)
    requires ValidTag(current)
    ensures LauncherVersion(Print(current, previous)) == current
  {
    TagsStayOnOneLine(current);
    var rest := (if previous.Some? then previous.value else "") + "\n";
    assert Print(current, previous) == current + "\n" + rest;
    NewlineAfter(current, rest);
  }

  /** Two publications with the same text name the same tags. */
  lemma PrintIsInjective(c1: string, p1: Option<string>, c2: string, p2: Option<string>)
    requires ValidTag(c1) && (p1.Some? ==> ValidTag(p1.value)) && ValidTag(c2) && (p2.Some? ==> ValidTag(p2.value))
    requires Print(c1, p1) == Print(c2, p2)
    ensures c1 == c2 && p1 == p2
  {
    ReadPublished(c1, p1);
    ReadPublished(c2, p2);
  }
}
