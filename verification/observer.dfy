/** The per-artifact loop and the coverage result of `observe` in src/git_repository.rs. */
module Observer {
  import opened Json
  import opened Binder
  import opened Sorting

  datatype Parse = Parsed(observations: seq<Observation>) | ParseError(message: string)

  /** What detection offers for a declared artifact. */
  datatype Detector = Unknown | Unsupported | Supported(pathSaysOtherLanguage: bool, parse: Parse)

  datatype Declaration = Declaration(ref: string, path: string, bindings: Bindings, detector: Detector)

  datatype Coverage = Coverage(status: string, scope: string, analyzed: seq<string>, gaps: seq<Gap>)

  /** What is recorded of an artifact: its declaration, which fixes path, language and digests, and
      the observations that were looked at. */
  datatype Artifact = Artifact(declaration: Declaration, observations: seq<Observation>)

  /** Facts are sorted and deduplicated by the code, so they are a set here. */
  datatype Observed = Observed(artifacts: seq<Artifact>, facts: set<Fact>, coverage: Coverage)

  datatype ObserveError = DuplicateRef | DuplicatePath

  /** Another call on a resource nobody bound is not looked at. */
  predicate Skipped(o: Observation, b: Bindings) {
    o.kind == OtherMethodCall && o.resource !in b.resources
  }

  predicate Analyzed(d: Declaration) {
    d.detector.Supported? && d.detector.parse.Parsed?
  }

  function ObservationsOf(d: Declaration): seq<Observation> {
    if Analyzed(d) then d.detector.parse.observations else []
  }

  /** The observations that are looked at, in order. */
  function Kept(os: seq<Observation>, b: Bindings): seq<Observation> {
    if os == [] then []
    else Kept(os[..|os| - 1], b) + if Skipped(os[|os| - 1], b) then [] else [os[|os| - 1]]
  }

  /** The records of the declared artifacts. */
  ghost predicate Recorded(artifacts: seq<Artifact>, ds: seq<Declaration>) {
    && |artifacts| == |ds|
    && forall i | 0 <= i < |ds| :: artifacts[i] == Artifact(ds[i], Kept(ObservationsOf(ds[i]), ds[i].bindings))
  }

  lemma RecordedNext(artifacts: seq<Artifact>, ds: seq<Declaration>, d: Declaration)
    requires Recorded(artifacts, ds)
    ensures Recorded(artifacts + [Artifact(d, Kept(ObservationsOf(d), d.bindings))], ds + [d])
  {
    hide Kept, ObservationsOf;
  }

  lemma KeptNext(os: seq<Observation>, o: Observation, b: Bindings)
    ensures Kept(os + [o], b) == Kept(os, b) + if Skipped(o, b) then [] else [o]
  {
    hide Skipped;
    assert (os + [o])[..|os|] == os;
  }

  predicate ArtifactLe(a: Artifact, b: Artifact) {
    StringLe(a.declaration.ref, b.declaration.ref)
  }

  ghost predicate AllBindable(d: Declaration, os: seq<Observation>, catalog: Catalog) {
    forall o | o in os && !Skipped(o, d.bindings) :: Bindable(o, d.bindings, ObservationsOf(d), catalog)
  }

  /** Nothing about the artifact is left open. */
  ghost predicate FullyCovered(d: Declaration, catalog: Catalog) {
    Analyzed(d) && !d.detector.pathSaysOtherLanguage && AllBindable(d, ObservationsOf(d), catalog)
  }

  /** A fact of one observation of the artifact. */
  ghost predicate FactFrom(f: Fact, d: Declaration, o: Observation, catalog: Catalog) {
    && !Skipped(o, d.bindings) && Bindable(o, d.bindings, ObservationsOf(d), catalog)
    && exists kind | kind in FactKinds(o, d.bindings).value ::
         f == FactOf(kind, o, d.ref, ResolveSymbol(o, d.bindings, ObservationsOf(d)).value, d.bindings, catalog)
  }

  ghost predicate FactsFrom(facts: seq<Fact>, before: seq<Fact>, d: Declaration, os: seq<Observation>, catalog: Catalog) {
    forall f :: f in facts <==> f in before || exists o | o in os :: FactFrom(f, d, o, catalog)
  }

  predicate WellFormedGap(gap: Gap, errors: bool) {
    gap.kind != "" && (gap.reason != "" || (errors && gap.kind == "parse-error")) && (gap.ref.Some? ==> gap.ref.value != "")
  }

  /** The observations of one artifact. */
  method BindAll(d: Declaration, os: seq<Observation>, catalog: Catalog, facts: seq<Fact>, gaps: seq<Gap>)
    returns (facts': seq<Fact>, gaps': seq<Gap>, kept: seq<Observation>)
    requires os == ObservationsOf(d) && d.ref != ""
    ensures kept == Kept(os, d.bindings)
    ensures gaps <= gaps' && (gaps' == gaps <==> AllBindable(d, os, catalog))
    ensures FactsFrom(facts', facts, d, os, catalog)
    ensures forall i | |gaps| <= i < |gaps'| :: WellFormedGap(gaps'[i], false)
  {
    hide Bindable, ResolveSymbol, FactKinds, FactOf, IsOperation, Skipped, AllBindable, FactsFrom, WellFormedGap;
    NothingBound(d, catalog, facts);
    hide Kept;
    var aliases := SymbolAliases(os);
    facts', gaps', kept := facts, gaps, [];
    for i := 0 to |os|
      invariant kept == Kept(os[..i], d.bindings)
      invariant gaps <= gaps' && (gaps' == gaps <==> AllBindable(d, os[..i], catalog))
      invariant FactsFrom(facts', facts, d, os[..i], catalog)
      invariant forall k | |gaps| <= k < |gaps'| :: WellFormedGap(gaps'[k], false)
    {
      var o := os[i];
      assert os[..i + 1] == os[..i] + [o];
      KeptNext(os[..i], o, d.bindings);
      BindableNext(d, os[..i], o, catalog);
      if !Skipped(o, d.bindings) {
        kept := kept + [o];
        ghost var f0, g0 := facts', gaps';
        facts', gaps' := BindObservation(o, d.ref, d.bindings, aliases, os, catalog, facts', gaps');
        BoundFacts(d, os, o, catalog, f0, facts', g0, gaps');
        FactsNext(d, os[..i], o, catalog, facts, f0, facts');
      } else {
        SkippedFacts(d, os[..i], o, catalog, facts, facts');
      }
    }
    assert os[..|os|] == os;
  }

  lemma NothingBound(d: Declaration, catalog: Catalog, facts: seq<Fact>)
    ensures AllBindable(d, [], catalog) && FactsFrom(facts, facts, d, [], catalog) && Kept([], d.bindings) == []
  {
    hide FactFrom;
  }

  lemma BindableNext(d: Declaration, os: seq<Observation>, o: Observation, catalog: Catalog)
    ensures AllBindable(d, os + [o], catalog) <==>
            AllBindable(d, os, catalog) && (Skipped(o, d.bindings) || Bindable(o, d.bindings, ObservationsOf(d), catalog))
  {
    hide Bindable, Skipped, ObservationsOf;
    assert forall x :: x in os + [o] <==> x in os || x == o;
  }

  lemma FactsNext(d: Declaration, os: seq<Observation>, o: Observation, catalog: Catalog, before: seq<Fact>, f0: seq<Fact>, f1: seq<Fact>)
    requires FactsFrom(f0, before, d, os, catalog)
    requires forall f :: f in f1 <==> f in f0 || FactFrom(f, d, o, catalog)
    ensures FactsFrom(f1, before, d, os + [o], catalog)
  {
    hide FactFrom;
    assert forall x :: x in os + [o] <==> x in os || x == o;
  }

  lemma SkippedFacts(d: Declaration, os: seq<Observation>, o: Observation, catalog: Catalog, before: seq<Fact>, facts: seq<Fact>)
    requires Skipped(o, d.bindings) && FactsFrom(facts, before, d, os, catalog)
    ensures FactsFrom(facts, before, d, os + [o], catalog)
  {
    hide Bindable, FactKinds, FactOf, ResolveSymbol;
    assert forall x :: x in os + [o] <==> x in os || x == o;
  }

  lemma BoundFacts(d: Declaration, os: seq<Observation>, o: Observation, catalog: Catalog,
                   f0: seq<Fact>, f1: seq<Fact>, g0: seq<Gap>, g1: seq<Gap>)
    requires os == ObservationsOf(d) && !Skipped(o, d.bindings) && d.ref != ""
    requires Bindable(o, d.bindings, os, catalog) ==>
               && g1 == g0 && |f1| == |f0| + |FactKinds(o, d.bindings).value| && f1[..|f0|] == f0
               && FactsFor(f1[|f0|..], FactKinds(o, d.bindings).value, o, d.ref, ResolveSymbol(o, d.bindings, os).value, d.bindings, catalog)
    requires !Bindable(o, d.bindings, os, catalog) ==>
               && f1 == f0 && |g1| == |g0| + 1 && g1[..|g0|] == g0
               && GapFor(g1[|g0|], o, d.ref, d.bindings, os, catalog)
    ensures forall f :: f in f1 <==> f in f0 || FactFrom(f, d, o, catalog)
    ensures g0 <= g1 && (g1 == g0 <==> Bindable(o, d.bindings, os, catalog))
    ensures forall i | |g0| <= i < |g1| :: WellFormedGap(g1[i], false)
  {
    hide FactOf, ResolveSymbol, IsOperation, Producible, FactKinds;
    if Bindable(o, d.bindings, os, catalog) {
      var kinds := FactKinds(o, d.bindings).value;
      var tail := f1[|f0|..];
      assert f1 == f0 + tail;
      forall f ensures f in tail <==> FactFrom(f, d, o, catalog) {
        if f in tail {
          var i :| 0 <= i < |tail| && tail[i] == f;
          assert kinds[i] in kinds;
        }
        if FactFrom(f, d, o, catalog) {
          var kind :| kind in kinds && f == FactOf(kind, o, d.ref, ResolveSymbol(o, d.bindings, os).value, d.bindings, catalog);
          var i :| 0 <= i < |kinds| && kinds[i] == kind;
          assert tail[i] == f;
        }
      }
    }
  }

  /** One declared artifact: its gaps and facts. */
  method ObserveArtifact(d: Declaration, catalog: Catalog, facts: seq<Fact>, gaps: seq<Gap>, analyzed: seq<string>)
    returns (facts': seq<Fact>, gaps': seq<Gap>, analyzed': seq<string>, artifact: Artifact)
    requires d.ref != ""
    ensures artifact == Artifact(d, Kept(ObservationsOf(d), d.bindings))
    ensures gaps <= gaps' && (gaps' == gaps <==> FullyCovered(d, catalog))
    ensures FactsFrom(facts', facts, d, ObservationsOf(d), catalog)
    ensures analyzed' == if Analyzed(d) then analyzed + [d.ref] else analyzed
    ensures forall i | |gaps| <= i < |gaps'| :: WellFormedGap(gaps'[i], true)
    ensures (d.detector.Supported? && d.detector.parse.ParseError? ==> d.detector.parse.message != "") ==>
              forall i | |gaps| <= i < |gaps'| :: WellFormedGap(gaps'[i], false)
  {
    hide AllBindable, FactFrom;
    facts', gaps', analyzed' := facts, gaps, analyzed;
    artifact := Artifact(d, []);
    if !d.detector.Supported? {
      gaps' := gaps + [Gap("unsupported-language", Some(d.ref), "language is not supported")];
      return;
    }
    if d.detector.pathSaysOtherLanguage {
      gaps' := gaps' + [Gap("language-path-mismatch", Some(d.ref), "language does not match source path")];
    }
    match d.detector.parse
    case ParseError(message) =>
      gaps' := gaps' + [Gap("parse-error", Some(d.ref), message)];
    case Parsed(observations) =>
      analyzed' := analyzed + [d.ref];
      ghost var before := gaps';
      var kept;
      facts', gaps', kept := BindAll(d, observations, catalog, facts, gaps');
      artifact := Artifact(d, kept);
  }

  /** A Git source target that no declaration binds. */
  ghost predicate AllDeclared(targets: seq<string>, ds: seq<Declaration>) {
    forall t | t in targets :: exists d | d in ds :: d.path == t
  }

  ghost predicate DistinctDeclarations(ds: seq<Declaration>) {
    forall i, j | 0 <= i < j < |ds| :: ds[i].ref != ds[j].ref && ds[i].path != ds[j].path
  }

  function AnalyzedRefs(ds: seq<Declaration>): seq<string> {
    if ds == [] then []
    else AnalyzedRefs(ds[..|ds| - 1]) + if Analyzed(ds[|ds| - 1]) then [ds[|ds| - 1].ref] else []
  }

  ghost predicate ParseMessagesGiven(ds: seq<Declaration>) {
    forall d | d in ds :: d.detector.Supported? && d.detector.parse.ParseError? ==> d.detector.parse.message != ""
  }

  ghost predicate AllFacts(facts: seq<Fact>, ds: seq<Declaration>, catalog: Catalog) {
    forall f :: f in facts <==> exists d, o :: d in ds && o in ObservationsOf(d) && FactFrom(f, d, o, catalog)
  }

  lemma AllFactsGrow(facts: seq<Fact>, later: seq<Fact>, ds: seq<Declaration>, d: Declaration, catalog: Catalog)
    requires AllFacts(facts, ds, catalog) && FactsFrom(later, facts, d, ObservationsOf(d), catalog)
    ensures AllFacts(later, ds + [d], catalog)
  {
    hide FactFrom, ObservationsOf;
    forall f ensures f in later <==> exists x, o :: x in ds + [d] && o in ObservationsOf(x) && FactFrom(f, x, o, catalog) {
      if f in later {
        if f in facts {
          var x, o :| x in ds && o in ObservationsOf(x) && FactFrom(f, x, o, catalog);
          assert x in ds + [d];
        } else {
          var o :| o in ObservationsOf(d) && FactFrom(f, d, o, catalog);
          assert d in ds + [d];
        }
      }
      if x, o :| x in ds + [d] && o in ObservationsOf(x) && FactFrom(f, x, o, catalog) {
        assert x in ds || x == d;
      }
    }
  }

  /** What is known after some of the declarations. */
  ghost predicate Progress(ds: seq<Declaration>, catalog: Catalog, facts: seq<Fact>, gaps: seq<Gap>, analyzed: seq<string>) {
    && AllFacts(facts, ds, catalog)
    && (gaps == [] <==> forall d | d in ds :: FullyCovered(d, catalog))
    && analyzed == AnalyzedRefs(ds)
    && (ParseMessagesGiven(ds) ==> forall gap | gap in gaps :: WellFormedGap(gap, false))
  }

  /** The body of the artifact loop. */
  method ObserveNext(ghost ds: seq<Declaration>, d: Declaration, catalog: Catalog, facts: seq<Fact>, gaps: seq<Gap>, analyzed: seq<string>)
    returns (facts': seq<Fact>, gaps': seq<Gap>, analyzed': seq<string>, artifact: Artifact)
    requires d.ref != "" && Progress(ds, catalog, facts, gaps, analyzed)
    ensures Progress(ds + [d], catalog, facts', gaps', analyzed')
    ensures artifact == Artifact(d, Kept(ObservationsOf(d), d.bindings))
  {
    hide FullyCovered, FactFrom, WellFormedGap, ObservationsOf, AllFacts, FactsFrom;
    facts', gaps', analyzed', artifact := ObserveArtifact(d, catalog, facts, gaps, analyzed);
    AllFactsGrow(facts, facts', ds, d, catalog);
    GapsStay(gaps, gaps', ds, d);
    assert (ds + [d])[..|ds|] == ds;
    assert forall x :: x in ds + [d] <==> x in ds || x == d;
    hide ParseMessagesGiven, AnalyzedRefs;
  }

  /** The loop over the declared artifacts. */
  method ObserveAll(ds: seq<Declaration>, catalog: Catalog)
    returns (r: Result<(seq<Fact>, seq<Gap>, seq<string>, set<string>, seq<Artifact>), ObserveError>)
    requires forall d | d in ds :: d.ref != ""
    ensures r.Ok? <==> DistinctDeclarations(ds)
    ensures r.Ok? ==> Progress(ds, catalog, r.value.0, r.value.1, r.value.2)
    ensures r.Ok? ==> r.value.3 == set d | d in ds :: d.path
    ensures r.Ok? ==> Recorded(r.value.4, ds)
  {
    var refs: set<string>, paths: set<string> := {}, {};
    var facts: seq<Fact>, gaps: seq<Gap>, analyzed: seq<string> := [], [], [];
    var artifacts: seq<Artifact> := [];
    assert Progress([], catalog, facts, gaps, analyzed) && Seen([], refs, paths) && Recorded(artifacts, []);
    hide Progress, DistinctDeclarations, Seen, Recorded, Kept, ObservationsOf;
    for i := 0 to |ds|
      invariant Seen(ds[..i], refs, paths)
      invariant Progress(ds[..i], catalog, facts, gaps, analyzed)
      invariant Recorded(artifacts, ds[..i])
    {
      var d := ds[i];
      assert ds[..i + 1] == ds[..i] + [d];
      SeenNext(ds, i, refs, paths);
      if d.ref in refs {
        return Err(DuplicateRef);
      }
      if d.path in paths {
        return Err(DuplicatePath);
      }
      refs, paths := refs + {d.ref}, paths + {d.path};
      var artifact;
      facts, gaps, analyzed, artifact := ObserveNext(ds[..i], d, catalog, facts, gaps, analyzed);
      RecordedNext(artifacts, ds[..i], d);
      artifacts := artifacts + [artifact];
    }
    assert ds[..|ds|] == ds;
    SeenAll(ds, refs, paths);
    return Ok((facts, gaps, analyzed, paths, artifacts));
  }

  /** The references and paths of some declarations, none of which repeats another. */
  ghost predicate Seen(ds: seq<Declaration>, refs: set<string>, paths: set<string>) {
    && DistinctDeclarations(ds)
    && (forall ref :: ref in refs <==> exists i | 0 <= i < |ds| :: ds[i].ref == ref)
    && (forall path :: path in paths <==> exists i | 0 <= i < |ds| :: ds[i].path == path)
  }

  lemma SeenNext(ds: seq<Declaration>, i: nat, refs: set<string>, paths: set<string>)
    requires i < |ds| && Seen(ds[..i], refs, paths)
    ensures ds[i].ref in refs || ds[i].path in paths ==> !DistinctDeclarations(ds)
    ensures ds[i].ref !in refs && ds[i].path !in paths ==> Seen(ds[..i + 1], refs + {ds[i].ref}, paths + {ds[i].path})
  {
    var later := ds[..i + 1];
    assert later == ds[..i] + [ds[i]] && later[i] == ds[i];
    forall ref: string ensures ref in refs + {ds[i].ref} <==> exists k | 0 <= k < |later| :: later[k].ref == ref {
      if k :| 0 <= k < |later| && later[k].ref == ref && k != i {
        assert ds[..i][k].ref == ref;
      }
      if k :| 0 <= k < i && ds[..i][k].ref == ref {
        assert later[k].ref == ref;
      }
    }
    forall path: string ensures path in paths + {ds[i].path} <==> exists k | 0 <= k < |later| :: later[k].path == path {
      if k :| 0 <= k < |later| && later[k].path == path && k != i {
        assert ds[..i][k].path == path;
      }
      if k :| 0 <= k < i && ds[..i][k].path == path {
        assert later[k].path == path;
      }
    }
  }

  lemma SeenAll(ds: seq<Declaration>, refs: set<string>, paths: set<string>)
    requires Seen(ds, refs, paths)
    ensures DistinctDeclarations(ds) && paths == set d | d in ds :: d.path
  {
    hide DistinctDeclarations;
    forall path: string ensures path in paths <==> path in set d | d in ds :: d.path {
      if i :| 0 <= i < |ds| && ds[i].path == path {
        assert ds[i] in ds;
      }
    }
  }

  lemma GapsStay(before: seq<Gap>, later: seq<Gap>, ds: seq<Declaration>, d: Declaration)
    requires before <= later
    requires ParseMessagesGiven(ds) ==> forall gap | gap in before :: WellFormedGap(gap, false)
    requires (d.detector.Supported? && d.detector.parse.ParseError? ==> d.detector.parse.message != "") ==>
               forall i | |before| <= i < |later| :: WellFormedGap(later[i], false)
    ensures ParseMessagesGiven(ds + [d]) ==> forall gap | gap in later :: WellFormedGap(gap, false)
  {
    hide WellFormedGap;
    if ParseMessagesGiven(ds + [d]) {
      assert d in ds + [d];
      assert forall x | x in ds :: x in ds + [d];
      forall gap | gap in later ensures WellFormedGap(gap, false) {
        var i :| 0 <= i < |later| && later[i] == gap;
        if i < |before| {
          assert before[i] == gap;
        }
      }
    }
  }

  method SortedArtifacts(artifacts: seq<Artifact>) returns (sorted: seq<Artifact>)
    ensures Sorted(sorted, ArtifactLe) && multiset(sorted) == multiset(artifacts)
  {
    ArtifactOrder();
    hide ArtifactLe, Sort, Sorted;
    SortIsSorted(artifacts, ArtifactLe);
    return Sort(artifacts, ArtifactLe);
  }

  lemma ArtifactOrder()
    ensures TotalPreorder(ArtifactLe)
  {
    StringOrder();
    hide StringLe;
  }

  lemma DeclaredAppend(ts: seq<string>, t: string, ds: seq<Declaration>)
    ensures AllDeclared(ts + [t], ds) <==> AllDeclared(ts, ds) && exists d | d in ds :: d.path == t
  {
    if AllDeclared(ts + [t], ds) {
      assert t in ts + [t];
      assert forall x | x in ts :: x in ts + [t];
    }
  }

  /** `observe`: coverage is complete exactly when every artifact is fully covered and every
      source target is declared, and the facts are those of the bindable observations. */
  method Observe(ds: seq<Declaration>, targets: seq<string>, catalog: Catalog)
    returns (r: Result<Observed, ObserveError>)
    requires forall d | d in ds :: d.ref != ""
    ensures r.Ok? <==> DistinctDeclarations(ds)
    ensures r.Ok? ==> Sorted(r.value.artifacts, ArtifactLe)
                      && exists all :: Recorded(all, ds) && multiset(r.value.artifacts) == multiset(all)
    ensures r.Ok? ==>
              var c := r.value.coverage;
              && c.status == (if c.gaps == [] then "complete" else "incomplete")
              && c.scope == "git-source-roots" && c.analyzed == AnalyzedRefs(ds)
              && (c.status == "complete" <==> (forall d | d in ds :: FullyCovered(d, catalog)) && AllDeclared(targets, ds))
              && (forall f :: f in r.value.facts <==> exists d, o :: d in ds && o in ObservationsOf(d) && FactFrom(f, d, o, catalog))
              && (ParseMessagesGiven(ds) ==> forall gap | gap in c.gaps :: WellFormedGap(gap, false))
  {
    hide FullyCovered, FactFrom;
    var all := ObserveAll(ds, catalog);
    if all.Err? {
      return Err(all.error);
    }
    var (facts, gaps, analyzed, paths, artifacts) := all.value;
    hide Recorded, Sorted, ArtifactLe;
    artifacts := SortedArtifacts(artifacts);
    ghost var bound := gaps;
    for i := 0 to |targets|
      invariant bound <= gaps && (gaps == bound <==> AllDeclared(targets[..i], ds))
      invariant ParseMessagesGiven(ds) ==> forall gap | gap in gaps :: WellFormedGap(gap, false)
    {
      assert targets[..i + 1] == targets[..i] + [targets[i]];
      assert targets[i] in paths <==> exists d | d in ds :: d.path == targets[i];
      DeclaredAppend(targets[..i], targets[i], ds);
      if targets[i] !in paths {
        gaps := gaps + [Gap("unbound-source-artifact", None, "Git source target has no artifact Binding Record: " + targets[i])];
      }
    }
    assert targets[..|targets|] == targets;
    return Ok(Observed(artifacts, (set f | f in facts),
                       Coverage(if gaps == [] then "complete" else "incomplete", "git-source-roots", analyzed, gaps)));
  }

  /** Complete coverage means that every write and every publish of every declared artifact
      yielded its fact. */
  lemma CompleteMeansEveryBuiltInCallIsAFact(ds: seq<Declaration>, catalog: Catalog, d: Declaration, o: Observation)
    returns (f: Fact)
    requires forall x | x in ds :: FullyCovered(x, catalog)
    requires d in ds && o in ObservationsOf(d) && o.kind != OtherMethodCall
    ensures FactFrom(f, d, o, catalog)
    ensures f.kind == if o.kind == DbWrite then "db_write" else "message_publish"
  {
    assert FullyCovered(d, catalog);
    assert !Skipped(o, d.bindings);
    assert Bindable(o, d.bindings, ObservationsOf(d), catalog);
    hide ResolveSymbol, SourceFactBindings, Producible, IsOperation;
    var kind := if o.kind == DbWrite then "db_write" else "message_publish";
    assert kind in FactKinds(o, d.bindings).value;
    f := FactOf(kind, o, d.ref, ResolveSymbol(o, d.bindings, ObservationsOf(d)).value, d.bindings, catalog);
  }

  /** A binding reached through a short name applies only when every observation with that short
      name is of one and the same qualified symbol. */
  lemma ShortNameIsUnambiguous(o: Observation, other: Observation, b: Bindings, observations: seq<Observation>)
    requires o in observations && other in observations
    requires o.symbol !in b.symbols && ResolveSymbol(o, b, observations).Some?
    requires Unqualified(other.symbol) == Unqualified(o.symbol)
    ensures other.symbol == o.symbol
  {
    hide Unqualified;
    var short := Unqualified(o.symbol);
    SingletonMembers(Qualified(observations, short), o.symbol, other.symbol);
  }

  lemma SingletonMembers(s: set<string>, a: string, b: string)
    requires |s| == 1 && a in s && b in s
    ensures a == b
  {
    assert |s - {a}| == 0;
    assert b !in s - {a};
  }
}
