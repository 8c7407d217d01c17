/** The persistent Contract Health index of src/filesystem_project.rs: records are decoded once
    for a source identity, compacted, and reused while their identity is unchanged.
  */
module HealthIndex {
  import opened Json
  import opened HealthRecords

  type Bytes = seq<nat>

  datatype Kind = ResultKind | EvidenceKind

  /** What `health_record_source_identities` writes for a file: the blob Git tracks for a clean
      path, or the SHA-256 of the bytes on disk.  Both name the bytes. */
  datatype Identity = GitBlob(bytes: Bytes) | Sha(bytes: Bytes)

  datatype Entry = Entry(identity: Identity, recordDigest: Value, projectionDigest: Value, record: Value)

  type Index = map<string, Entry>

  datatype LoadError = Unreadable | NotDecodable | NoDigest | NotIndexable | IdMissing | DuplicateId

  datatype Loaded = Loaded(records: seq<Value>, digests: map<string, Value>)

  type Decoder = (Kind, Bytes) -> Option<Value>

  /** The working tree below the change root, the Git index and HEAD, and what Git answers. */
  datatype Tree = Tree(
    files: map<string, Bytes>,
    staged: map<string, Bytes>,
    head: map<string, Bytes>,
    listsFiles: bool,
    reportsStatus: bool)

  // ------------------------------------------------------------------- compaction

  /** `value[key]` on a mutable value: a missing field is inserted as Null and a Null becomes an
      object; any other value makes the program stop. */
  function IndexMut(v: Value, key: string): Option<Value> {
    match v
    case Null => Some(Obj(map[key := Null]))
    case Obj(fields) => Some(if key in fields then v else Obj(fields[key := Null]))
    case _ => None
  }

  function Without(o: Value, key: string, inherited: Option<Value>): Value {
    if o.Obj? && o.Get(key) == inherited then Obj(o.fields - {key}) else o
  }

  /** One outcome: references it repeats from its Result are dropped. */
  function CompactOutcome(o: Value, result: Value): Value {
    Without(Without(o, "input_refs", result.Get("input_refs")), "freshness_refs", result.Get("freshness_refs"))
  }

  function CompactAll(outcomes: seq<Value>, result: Value): seq<Value> {
    seq(|outcomes|, i requires 0 <= i < |outcomes| => CompactOutcome(outcomes[i], result))
  }

  /** `compact_indexed_result`; None where the mutable indexing stops the program. */
  function CompactResult(result: Value): Option<Value> {
    match IndexMut(result, "payload")
    case None => None
    case Some(outer) =>
      match IndexMut(outer.At("payload"), "outcomes")
      case None => None
      case Some(payload) =>
        var outcomes := payload.At("outcomes");
        var compacted := if outcomes.Arr? then Arr(CompactAll(outcomes.items, result)) else outcomes;
        Some(Obj(outer.fields["payload" := Obj(payload.fields["outcomes" := compacted])]))
  }

  /** The in-place loop of `compact_indexed_result`. */
  method CompactOutcomesInPlace(outcomes: array<Value>, result: Value)
    modifies outcomes
    ensures outcomes[..] == CompactAll(old(outcomes[..]), result)
  {
    var inputs, freshness := result.Get("input_refs"), result.Get("freshness_refs");
    for i := 0 to outcomes.Length
      invariant forall k | 0 <= k < i :: outcomes[k] == CompactOutcome(old(outcomes[k]), result)
      invariant forall k | i <= k < outcomes.Length :: outcomes[k] == old(outcomes[k])
    {
      if outcomes[i].Obj? {
        if outcomes[i].Get("input_refs") == inputs {
          outcomes[i] := Obj(outcomes[i].fields - {"input_refs"});
        }
        if outcomes[i].Get("freshness_refs") == freshness {
          outcomes[i] := Obj(outcomes[i].fields - {"freshness_refs"});
        }
      }
    }
  }

  function Projection(kind: Kind, original: Value): Option<Value> {
    if kind == ResultKind then CompactResult(original) else Some(original)
  }

  // ------------------------------------------------------------- identities and entries

  /** A path Git reports nothing about: the file is the staged blob and the blob is committed. */
  predicate Clean(tree: Tree, path: string) {
    && path in tree.files && path in tree.staged && path in tree.head
    && tree.files[path] == tree.staged[path] == tree.head[path]
  }

  /** `health_record_source_identities` for one path. */
  function IdentityOf(tree: Tree, path: string): Identity
    requires path in tree.files
  {
    var dirty := !tree.reportsStatus || !Clean(tree, path);
    if !dirty && tree.listsFiles && path in tree.staged then GitBlob(tree.staged[path]) else Sha(tree.files[path])
  }

  /** An entry built from the bytes of a file. */
  function FreshEntry(decode: Decoder, kind: Kind, identity: Identity, bytes: Bytes): Result<Entry, LoadError> {
    match decode(kind, bytes)
    case None => Err(NotDecodable)
    case Some(original) =>
      if CanonicalDigest(original).None? then Err(NoDigest)
      else
        match Projection(kind, original)
        case None => Err(NotIndexable)
        case Some(record) =>
          if CanonicalDigest(record).None? then Err(NoDigest)
          else Ok(Entry(identity, CanonicalDigest(original).value, CanonicalDigest(record).value, record))
  }

  /** A previous entry is reused when its identity is current and its record is intact. */
  predicate Intact(entry: Entry) {
    CanonicalDigest(entry.record) == Some(entry.projectionDigest)
  }

  function EntryFor(decode: Decoder, kind: Kind, tree: Tree, index: Index, path: string): Result<Entry, LoadError>
    requires path in tree.files
  {
    if path in index && index[path].identity == IdentityOf(tree, path) && Intact(index[path]) then Ok(index[path])
    else FreshEntry(decode, kind, IdentityOf(tree, path), tree.files[path])
  }

  // --------------------------------------------------------------------- loading

  function AddEntry(loaded: Loaded, entry: Entry): Result<Loaded, LoadError> {
    match IdOf(entry.record)
    case None => Err(IdMissing)
    case Some(id) =>
      if id in loaded.digests then Err(DuplicateId)
      else Ok(Loaded(loaded.records + [entry.record], loaded.digests[id := entry.recordDigest]))
  }

  /** Loading with an index, path by path. */
  function LoadWith(decode: Decoder, kind: Kind, tree: Tree, index: Index, paths: seq<string>): Result<Loaded, LoadError>
    requires forall path | path in paths :: path in tree.files
  {
    if paths == [] then Ok(Loaded([], map[]))
    else
      var last := paths[|paths| - 1];
      match LoadWith(decode, kind, tree, index, paths[..|paths| - 1])
      case Err(e) => Err(e)
      case Ok(loaded) =>
        match EntryFor(decode, kind, tree, index, last)
        case Err(e) => Err(e)
        case Ok(entry) => AddEntry(loaded, entry)
  }

  /** Loading with no index at all: every file is decoded afresh. */
  function LoadAfresh(decode: Decoder, kind: Kind, files: map<string, Bytes>, paths: seq<string>): Result<Loaded, LoadError>
    requires forall path | path in paths :: path in files
  {
    if paths == [] then Ok(Loaded([], map[]))
    else
      var last := paths[|paths| - 1];
      match LoadAfresh(decode, kind, files, paths[..|paths| - 1])
      case Err(e) => Err(e)
      case Ok(loaded) =>
        match FreshEntry(decode, kind, Sha(files[last]), files[last])
        case Err(e) => Err(e)
        case Ok(entry) => AddEntry(loaded, entry)
  }

  /** An entry that says what its identity's bytes say. */
  predicate Faithful(decode: Decoder, kind: Kind, entry: Entry) {
    FreshEntry(decode, kind, entry.identity, entry.identity.bytes) == Ok(entry)
  }

  /** Every entry that could be reused is faithful. */
  predicate Sound(decode: Decoder, kind: Kind, index: Index) {
    forall path | path in index :: Intact(index[path]) ==> Faithful(decode, kind, index[path])
  }

  lemma IdentityNamesBytes(tree: Tree, path: string)
    requires path in tree.files
    ensures IdentityOf(tree, path).bytes == tree.files[path]
  {}

  lemma EntryForIsFresh(decode: Decoder, kind: Kind, tree: Tree, index: Index, path: string)
    requires path in tree.files && Sound(decode, kind, index)
    ensures EntryFor(decode, kind, tree, index, path) ==
            FreshEntry(decode, kind, IdentityOf(tree, path), tree.files[path])
    ensures EntryFor(decode, kind, tree, index, path).Ok? ==>
              Faithful(decode, kind, EntryFor(decode, kind, tree, index, path).value)
  {
    IdentityNamesBytes(tree, path);
  }

  /** What an entry delivers does not depend on how its file is identified. */
  lemma EntryDelivers(decode: Decoder, kind: Kind, tree: Tree, index: Index, path: string, loaded: Loaded)
    requires path in tree.files && Sound(decode, kind, index)
    ensures var entry, afresh := EntryFor(decode, kind, tree, index, path), FreshEntry(decode, kind, Sha(tree.files[path]), tree.files[path]);
            && (entry.Err? ==> afresh == entry)
            && (entry.Ok? ==> afresh.Ok? && AddEntry(loaded, entry.value) == AddEntry(loaded, afresh.value))
  {
    EntryForIsFresh(decode, kind, tree, index, path);
    hide EntryFor, Sound, Faithful, IdentityOf, Intact, Projection, Canonical;
  }

  /** A sound index changes nothing about what is loaded, whatever the tree. */
  lemma {:induction false} IndexIsTransparent(decode: Decoder, kind: Kind, tree: Tree, index: Index, paths: seq<string>)
    requires forall path | path in paths :: path in tree.files
    requires Sound(decode, kind, index)
    ensures LoadWith(decode, kind, tree, index, paths) == LoadAfresh(decode, kind, tree.files, paths)
  {
    if paths != [] {
      hide EntryFor, Sound, FreshEntry, Faithful, AddEntry, IdentityOf, Intact, Projection;
      var before, last := paths[..|paths| - 1], paths[|paths| - 1];
      assert paths == before + [last];
      IndexIsTransparent(decode, kind, tree, index, before);
      var loaded := LoadWith(decode, kind, tree, index, before);
      if loaded.Ok? {
        EntryDelivers(decode, kind, tree, index, last, loaded.value);
      }
    }
  }

  lemma {:induction false} LoadErrStays(decode: Decoder, kind: Kind, tree: Tree, index: Index, paths: seq<string>, n: nat)
    requires forall path | path in paths :: path in tree.files
    requires n <= |paths| && LoadWith(decode, kind, tree, index, paths[..n]).Err?
    ensures LoadWith(decode, kind, tree, index, paths) == LoadWith(decode, kind, tree, index, paths[..n])
    decreases |paths| - n
  {
    if n < |paths| {
      assert paths[..n + 1][..n] == paths[..n];
      LoadErrStays(decode, kind, tree, index, paths, n + 1);
    } else {
      assert paths[..n] == paths;
    }
  }

  /** The entries written back: one for each path, under its current identity. */
  ghost predicate WrittenFor(decode: Decoder, kind: Kind, tree: Tree, entries: Index, paths: seq<string>) {
    && (forall path :: path in entries <==> path in paths)
    && (forall path | path in entries :: Faithful(decode, kind, entries[path]))
    && (forall path | path in entries :: path in tree.files && entries[path].identity == IdentityOf(tree, path))
  }

  /** The loop over the record files, reusing entries of the previous index. */
  method LoadEntries(decode: Decoder, kind: Kind, tree: Tree, previous: Index, paths: seq<string>)
    returns (r: Result<Loaded, LoadError>, entries: Index)
    requires forall path | path in paths :: path in tree.files
    requires Sound(decode, kind, previous)
    ensures r == LoadWith(decode, kind, tree, previous, paths)
    ensures r.Ok? ==> WrittenFor(decode, kind, tree, entries, paths)
  {
    hide FreshEntry, Intact, Projection, Faithful, Sound, EntryFor, AddEntry, IdentityOf, LoadWith, WrittenFor;
    var loaded := Loaded([], map[]);
    entries := map[];
    NothingLoaded(decode, kind, tree, previous);
    assert paths[..0] == [];
    for i := 0 to |paths|
      invariant LoadWith(decode, kind, tree, previous, paths[..i]) == Ok(loaded)
      invariant WrittenFor(decode, kind, tree, entries, paths[..i])
    {
      var path := paths[i];
      LoadNext(decode, kind, tree, previous, paths, i);
      WriteNext(decode, kind, tree, previous, entries, paths, i);
      var entry := EntryFor(decode, kind, tree, previous, path);
      if entry.Err? {
        LoadErrStays(decode, kind, tree, previous, paths, i + 1);
        return Err(entry.error), entries;
      }
      var next := AddEntry(loaded, entry.value);
      if next.Err? {
        LoadErrStays(decode, kind, tree, previous, paths, i + 1);
        return Err(next.error), entries;
      }
      loaded := next.value;
      entries := entries[path := entry.value];
    }
    assert paths[..|paths|] == paths;
    return Ok(loaded), entries;
  }

  lemma NothingLoaded(decode: Decoder, kind: Kind, tree: Tree, index: Index)
    ensures LoadWith(decode, kind, tree, index, []) == Ok(Loaded([], map[]))
    ensures WrittenFor(decode, kind, tree, map[], [])
  {}

  lemma LoadNext(decode: Decoder, kind: Kind, tree: Tree, index: Index, paths: seq<string>, i: nat)
    requires i < |paths| && forall path | path in paths :: path in tree.files
    requires LoadWith(decode, kind, tree, index, paths[..i]).Ok?
    ensures LoadWith(decode, kind, tree, index, paths[..i + 1]) ==
            match EntryFor(decode, kind, tree, index, paths[i])
            case Err(e) => Err(e)
            case Ok(entry) => AddEntry(LoadWith(decode, kind, tree, index, paths[..i]).value, entry)
  {
    hide EntryFor, AddEntry;
    assert paths[..i + 1][..i] == paths[..i];
  }

  lemma WriteNext(decode: Decoder, kind: Kind, tree: Tree, index: Index, entries: Index, paths: seq<string>, i: nat)
    requires i < |paths| && forall path | path in paths :: path in tree.files
    requires Sound(decode, kind, index) && WrittenFor(decode, kind, tree, entries, paths[..i])
    ensures EntryFor(decode, kind, tree, index, paths[i]).Ok? ==>
              WrittenFor(decode, kind, tree, entries[paths[i] := EntryFor(decode, kind, tree, index, paths[i]).value], paths[..i + 1])
  {
    EntryForIsFresh(decode, kind, tree, index, paths[i]);
    EntryIdentity(decode, kind, tree, index, paths[i]);
    hide EntryFor, Faithful, Sound, IdentityOf, FreshEntry;
    assert paths[..i + 1] == paths[..i] + [paths[i]];
  }

  /** The store's view of one record collection: its index file and whether it may be used. */
  class IndexedRecords {
    const decode: Decoder
    const kind: Kind
    var index: Index
    var ignored: bool

    constructor (decode: Decoder, kind: Kind)
      ensures this.decode == decode && this.kind == kind && index == map[] && !ignored
      ensures Sound(decode, kind, index)
    {
      this.decode, this.kind := decode, kind;
      index, ignored := map[], false;
    }

    /** `load_indexed_health_records`: the result is that of decoding every file afresh, and the
        index that is written back holds exactly the loaded paths and stays sound. */
    method LoadIndexedHealthRecords(tree: Tree, paths: seq<string>) returns (r: Result<Loaded, LoadError>)
      requires forall path | path in paths :: path in tree.files
      requires Sound(decode, kind, index)
      modifies this`index
      ensures r == LoadAfresh(decode, kind, tree.files, paths)
      ensures Sound(decode, kind, index)
      ensures r.Err? || !ignored ==> index == old(index)
      ensures r.Ok? && ignored ==> WrittenFor(decode, kind, tree, index, paths)
    {
      hide Faithful, FreshEntry;
      var previous: Index := if ignored then index else map[];
      var entries;
      r, entries := LoadEntries(decode, kind, tree, previous, paths);
      IndexIsTransparent(decode, kind, tree, previous, paths);
      if r.Ok? && ignored {
        index := entries;
      }
    }
  }

  lemma EntryIdentity(decode: Decoder, kind: Kind, tree: Tree, index: Index, path: string)
    requires path in tree.files
    ensures EntryFor(decode, kind, tree, index, path).Ok? ==>
              EntryFor(decode, kind, tree, index, path).value.identity == IdentityOf(tree, path)
  {}
}
