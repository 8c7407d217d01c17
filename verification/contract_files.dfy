/** The locked Contract writers of src/filesystem_project.rs: one file per record, a lock held
    from the read to the rename, and any number of writers and crashes.
  */
module ContractFiles {
  import opened Json
  import opened ContractMerge
  import opened ContractStore

  datatype Extension = Markdown | Yaml

  /** A document somewhere below its root: `<stem>.md` or `<stem>.yaml`. */
  datatype Path = Path(directory: seq<string>, stem: string, extension: Extension)

  /** What loading a document gives: its record, or an error of reading or parsing. */
  datatype Document = Broken | Holds(record: Value)

  type Files = map<Path, Document>

  predicate SafeChar(c: char) {
    'a' <= c <= 'z' || 'A' <= c <= 'Z' || '0' <= c <= '9'
  }

  /** `safe_id` */
  predicate SafeId(id: string) {
    |id| > 0 && SafeChar(id[0]) && forall c | c in id[1..] :: SafeChar(c) || c in {'.', '_', '-'}
  }

  predicate Carries(document: Document, id: string) {
    document.Holds? && IdOf(document.record) == Some(id)
  }

  function Matches(files: Files, id: string): set<Path> {
    set path | path in files && Carries(files[path], id)
  }

  predicate Loadable(files: Files) {
    forall path | path in files :: files[path].Holds?
  }

  /** The documents of the Contract root and of the Decision root. */
  datatype Roots = Roots(contracts: Files, decisions: Files)

  predicate HasMarkdown(files: Files) {
    exists path | path in files.Keys :: path.extension.Markdown?
  }

  /** `preferred_document_format`: the configured format, or Markdown once any document of the
      project, a Change included, is Markdown. */
  function Preferred(configured: Option<Extension>, changesMarkdown: bool, roots: Roots): Extension {
    if configured.Some? then configured.value
    else if HasMarkdown(roots.contracts) || HasMarkdown(roots.decisions) || changesMarkdown then Markdown
    else Yaml
  }

  ghost function Only(paths: set<Path>): Path
    requires |paths| == 1
  {
    var path :| path in paths;
    path
  }

  lemma OnlyMember(paths: set<Path>, path: Path)
    requires |paths| == 1 && path in paths
    ensures Only(paths) == path && paths == {path}
  {
    assert |paths - {path}| == 0;
    assert Only(paths) in paths;
  }

  /** The stored record with an ID, when there is exactly one document for it. */
  ghost function Stored(files: Files, id: string): Option<Value> {
    if |Matches(files, id)| == 1 then
      assert Only(Matches(files, id)) in Matches(files, id);
      Some(files[Only(Matches(files, id))].record)
    else None
  }

  /** The document a record is written to. */
  ghost function Target(files: Files, id: string, preferred: Extension): Path {
    if |Matches(files, id)| == 1 then Only(Matches(files, id)) else Path([], id, preferred)
  }

  /** The requests of the locked writers. */
  predicate LockedRequest(q: Request) {
    q.UpsertContract? || q.UpsertContractClauses? || q.UpsertDecision?
  }

  function Sent(q: Request): Value
    requires LockedRequest(q)
  {
    if q.UpsertContract? then q.contract else if q.UpsertContractClauses? then q.patch else q.decision
  }

  function Kind(q: Request): string {
    if q.UpsertDecision? then "decision" else "contract"
  }

  /** The documents a request is about. */
  function RootOf(roots: Roots, q: Request): Files {
    if q.UpsertDecision? then roots.decisions else roots.contracts
  }

  function WithRoot(roots: Roots, q: Request, files: Files): Roots {
    if q.UpsertDecision? then roots.(decisions := files) else roots.(contracts := files)
  }

  /** The record a request leaves in place of the stored one. */
  function Written(valid: Registry, existing: Option<Value>, q: Request): Result<Value, StoreError>
    requires LockedRequest(q)
  {
    match q
    case UpsertContract(contract, expected) =>
      var guard := ContractGuard(existing, contract, expected);
      if guard.Some? then Err(guard.value) else Ok(contract)
    case UpsertDecision(decision, expected) =>
      var guard := RecordGuard(existing, decision, expected);
      if guard.Some? then Err(guard.value) else Ok(decision)
    case UpsertContractClauses(patch, expected) =>
      var merged := MergeRecord(existing, patch, expected);
      if merged.Err? then Err(ClauseMerge(merged.error))
      else if !valid("contract", merged.value) then Err(SchemaInvalid)
      else Ok(merged.value)
  }

  /** A request on the documents of its root. */
  ghost function FileApply(valid: Registry, preferred: Extension, files: Files, q: Request): Result<Files, StoreError>
    requires LockedRequest(q)
  {
    if !valid(Kind(q), Sent(q)) then Err(SchemaInvalid)
    else if IdOf(Sent(q)).None? || !SafeId(IdOf(Sent(q)).value) then Err(IdMissing)
    else if !Loadable(files) then Err(Unreadable)
    else
      var id := IdOf(Sent(q)).value;
      if |Matches(files, id)| > 1 then Err(DuplicateRecord)
      else
        match Written(valid, Stored(files, id), q)
        case Err(e) => Err(e)
        case Ok(record) => Ok(files[Target(files, id, preferred) := Holds(record)])
  }

  ghost function FileAfter(valid: Registry, preferred: Extension, files: Files, q: Request): Files
    requires LockedRequest(q)
  {
    match FileApply(valid, preferred, files, q)
    case Ok(t) => t
    case Err(_) => files
  }

  ghost function RootsAfter(valid: Registry, preferred: Extension, roots: Roots, q: Request): Roots
    requires LockedRequest(q)
  {
    WithRoot(roots, q, FileAfter(valid, preferred, RootOf(roots, q), q))
  }

  /** What a writer reports when its file operations work, or when they do not. */
  ghost function Report(r: Result<Files, StoreError>, works: bool): Option<StoreError> {
    if r.Err? then Some(r.error) else if works then None else Some(WriteFailed)
  }

  class FileContractStore {
    const valid: Registry
    const configured: Option<Extension>
    /** Whether some Change has a Markdown document. */
    var changesMarkdown: bool
    var roots: Roots

    constructor (valid: Registry, configured: Option<Extension>, changesMarkdown: bool, roots: Roots)
      ensures this.valid == valid && this.configured == configured
      ensures this.changesMarkdown == changesMarkdown && this.roots == roots
    {
      this.valid, this.configured := valid, configured;
      this.changesMarkdown, this.roots := changesMarkdown, roots;
    }

    function PreferredFormat(): Extension
      reads this
    {
      Preferred(configured, changesMarkdown, roots)
    }

    /** `record_path`: load every document of a root and look for the ID. */
    static method RecordPath(files: Files, id: string) returns (r: Result<Option<Path>, StoreError>)
      ensures !Loadable(files) ==> r == Err(Unreadable)
      ensures Loadable(files) && |Matches(files, id)| > 1 ==> r == Err(DuplicateRecord)
      ensures Loadable(files) && |Matches(files, id)| <= 1 ==>
                r == Ok(if |Matches(files, id)| == 1 then Some(Only(Matches(files, id))) else None)
    {
      ghost var found: set<Path> := {};
      var rest := files.Keys;
      var matches: seq<Path> := [];
      while rest != {}
        invariant Scanned(files, id, rest, found)
        invariant |matches| == |found|
        invariant matches != [] ==> matches[0] in found
        decreases rest
      {
        var path :| path in rest;
        if files[path].Broken? {
          return Err(Unreadable);
        }
        ScanNext(files, id, rest, found, path);
        if IdOf(files[path].record) == Some(id) {
          matches := matches + [path];
          found := found + {path};
        }
        rest := rest - {path};
      }
      ScanDone(files, id, found);
      if |matches| > 1 {
        return Err(DuplicateRecord);
      }
      if |matches| == 1 {
        OnlyMember(found, matches[0]);
        return Ok(Some(matches[0]));
      }
      return Ok(None);
    }

    method UpsertContractFile(contract: Value, expected: Option<Value>, works: bool)
      returns (refused: Option<StoreError>)
      modifies this`roots
      ensures refused == Report(FileApply(valid, old(PreferredFormat()), old(roots.contracts), UpsertContract(contract, expected)), works)
      ensures roots == if works then RootsAfter(valid, old(PreferredFormat()), old(roots), UpsertContract(contract, expected)) else old(roots)
    {
      if !valid("contract", contract) {
        return Some(SchemaInvalid);
      }
      var id := IdOf(contract);
      if id.None? || !SafeId(id.value) {
        return Some(IdMissing);
      }
      var found := RecordPath(roots.contracts, id.value);
      if found.Err? {
        return Some(found.error);
      }
      var existing: Option<Value> := None;
      if found.value.Some? {
        assert found.value.value in Matches(roots.contracts, id.value);
        existing := Some(roots.contracts[found.value.value].record);
      }
      var guard := ContractGuard(existing, contract, expected);
      if guard.Some? {
        return guard;
      }
      var path := if found.value.Some? then found.value.value else Path([], id.value, PreferredFormat());
      if !works {
        return Some(WriteFailed);
      }
      roots := roots.(contracts := roots.contracts[path := Holds(contract)]);
      return None;
    }

    method UpsertContractClausesFile(patch: Value, expected: map<string, Value>, works: bool)
      returns (refused: Option<StoreError>)
      modifies this`roots
      ensures refused == Report(FileApply(valid, old(PreferredFormat()), old(roots.contracts), UpsertContractClauses(patch, expected)), works)
      ensures roots == if works then RootsAfter(valid, old(PreferredFormat()), old(roots), UpsertContractClauses(patch, expected)) else old(roots)
    {
      if !valid("contract", patch) {
        return Some(SchemaInvalid);
      }
      var id := IdOf(patch);
      if id.None? || !SafeId(id.value) {
        return Some(IdMissing);
      }
      var found := RecordPath(roots.contracts, id.value);
      if found.Err? {
        return Some(found.error);
      }
      var existing: Option<Value> := None;
      if found.value.Some? {
        assert found.value.value in Matches(roots.contracts, id.value);
        existing := Some(roots.contracts[found.value.value].record);
      }
      var merged := MergeContractClauseUpdate(existing, patch, expected);
      if merged.Err? {
        return Some(ClauseMerge(merged.error));
      }
      if !valid("contract", merged.value) {
        return Some(SchemaInvalid);
      }
      if !works {
        return Some(WriteFailed);
      }
      // A merge never succeeds without a stored record, so the document exists.
      roots := roots.(contracts := roots.contracts[found.value.value := Holds(merged.value)]);
      return None;
    }

    method UpsertDecisionFile(decision: Value, expected: Option<Value>, works: bool)
      returns (refused: Option<StoreError>)
      modifies this`roots
      ensures refused == Report(FileApply(valid, old(PreferredFormat()), old(roots.decisions), UpsertDecision(decision, expected)), works)
      ensures roots == if works then RootsAfter(valid, old(PreferredFormat()), old(roots), UpsertDecision(decision, expected)) else old(roots)
    {
      if !valid("decision", decision) {
        return Some(SchemaInvalid);
      }
      var id := IdOf(decision);
      if id.None? || !SafeId(id.value) {
        return Some(IdMissing);
      }
      var found := RecordPath(roots.decisions, id.value);
      if found.Err? {
        return Some(found.error);
      }
      var existing: Option<Value> := None;
      if found.value.Some? {
        assert found.value.value in Matches(roots.decisions, id.value);
        existing := Some(roots.decisions[found.value.value].record);
      }
      var guard := RecordGuard(existing, decision, expected);
      if guard.Some? {
        return guard;
      }
      // `upsert_document_record` looks for the document once more.
      found := RecordPath(roots.decisions, id.value);
      var path := if found.value.Some? then found.value.value else Path([], id.value, PreferredFormat());
      if !works {
        return Some(WriteFailed);
      }
      roots := roots.(decisions := roots.decisions[path := Holds(decision)]);
      return None;
    }
  }

  /** The documents outside `rest` have been loaded; those that carry the ID are `found`. */
  ghost predicate Scanned(files: Files, id: string, rest: set<Path>, found: set<Path>) {
    && rest <= files.Keys
    && (forall path | path in files && path !in rest :: files[path].Holds?)
    && (forall path :: path in found <==> path in files && path !in rest && Carries(files[path], id))
  }

  lemma ScanNext(files: Files, id: string, rest: set<Path>, found: set<Path>, path: Path)
    requires Scanned(files, id, rest, found) && path in rest && files[path].Holds?
    ensures path !in found
    ensures Scanned(files, id, rest - {path}, if Carries(files[path], id) then found + {path} else found)
  {}

  lemma ScanDone(files: Files, id: string, found: set<Path>)
    requires Scanned(files, id, {}, found)
    ensures Loadable(files) && found == Matches(files, id)
  {}
}
