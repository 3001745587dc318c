/** The store of everything the analysis found so far: ten sets, one per
    step and outcome, each ordered alphabetically by coordinates, that are
    filled as results arrive and are written to and read from YAML. */
module YamlPersistence {
  import opened Wrappers
  import opened Strings
  import opened Coordinates
  import opened CompletedArtifacts
  import opened Artifacts
  import opened SortedSets
  import opened Persistence

  // The comparators of the ten sets: by project or by artifact coordinates.

  function ResolvedProjectKey(r: ResolvedProject): seq<string> { ProjectKey(r.project) }
  function FailedProjectKey(f: FailedProject): seq<string> { ProjectKey(f.project) }
  function DownloadedKey(d: DownloadedArtifact): seq<string> { ArtifactKey(d.artifact) }
  function FailedArtifactKey(f: FailedArtifact): seq<string> { ArtifactKey(f.artifact) }
  function AnalyzedKey(a: AnalyzedArtifact): seq<string> { ArtifactKey(a.artifact) }
  function ResolvedArtifactKey(a: ResolvedArtifact): seq<string> { ArtifactKey(a.artifact) }
  function CompletedKey(a: CompletedArtifact): seq<string> { ArtifactKey(a.artifact) }

  /** The contents of the ten sets, each in ascending order. */
  datatype Store = Store(
    projects: seq<ProjectCoordinates>,
    resolvedProjects: seq<ResolvedProject>,
    resolutionFailedProjects: seq<FailedProject>,
    downloadedArtifacts: seq<DownloadedArtifact>,
    downloadFailedArtifacts: seq<FailedArtifact>,
    analyzedArtifacts: seq<AnalyzedArtifact>,
    analysisFailedArtifacts: seq<FailedArtifact>,
    resolvedArtifacts: seq<ResolvedArtifact>,
    resolutionFailedArtifacts: seq<FailedArtifact>,
    completedArtifacts: seq<CompletedArtifact>)

  const EmptyStore := Store([], [], [], [], [], [], [], [], [], [])

  /** Every set is ordered by its comparator, so it holds at most one element
      per coordinates. */
  ghost predicate Ordered(s: Store)
  {
    && Sorted(s.projects, ProjectKey)
    && Sorted(s.resolvedProjects, ResolvedProjectKey)
    && Sorted(s.resolutionFailedProjects, FailedProjectKey)
    && Sorted(s.downloadedArtifacts, DownloadedKey)
    && Sorted(s.downloadFailedArtifacts, FailedArtifactKey)
    && Sorted(s.analyzedArtifacts, AnalyzedKey)
    && Sorted(s.analysisFailedArtifacts, FailedArtifactKey)
    && Sorted(s.resolvedArtifacts, ResolvedArtifactKey)
    && Sorted(s.resolutionFailedArtifacts, FailedArtifactKey)
    && Sorted(s.completedArtifacts, CompletedKey)
  }

  /** `PersistentAnalysis`: one list per step. Resolved projects, downloaded
      and analysed artifacts are carried as they are. */
  datatype PersistentAnalysis = PersistentAnalysis(
    projects: seq<PersistentProjectCoordinates>,
    resolvedProjects: seq<ResolvedProject>,
    resolutionFailedProjects: seq<PersistentFailedProject>,
    downloadedArtifacts: seq<DownloadedArtifact>,
    downloadFailedArtifacts: seq<PersistentFailedArtifact>,
    analyzedArtifacts: seq<AnalyzedArtifact>,
    analysisFailedArtifacts: seq<PersistentFailedArtifact>,
    resolvedArtifacts: seq<PersistentResolvedArtifact>,
    resolutionFailedArtifacts: seq<PersistentFailedArtifact>,
    completedArtifacts: seq<PersistentCompletedArtifact>)

  /** A value that needs no conversion. */
  function Unconverted<T>(x: T): Result<T>
  {
    Ok(x)
  }

  /** `toPersistentAnalysis`: each set, in its order, to the list of its step. */
  function Persist(s: Store): (p: PersistentAnalysis)
    ensures |p.projects| == |s.projects| && |p.resolvedProjects| == |s.resolvedProjects|
    ensures |p.resolutionFailedProjects| == |s.resolutionFailedProjects|
    ensures |p.downloadedArtifacts| == |s.downloadedArtifacts| && |p.downloadFailedArtifacts| == |s.downloadFailedArtifacts|
    ensures |p.analyzedArtifacts| == |s.analyzedArtifacts| && |p.analysisFailedArtifacts| == |s.analysisFailedArtifacts|
    ensures |p.resolvedArtifacts| == |s.resolvedArtifacts| && |p.resolutionFailedArtifacts| == |s.resolutionFailedArtifacts|
    ensures |p.completedArtifacts| == |s.completedArtifacts|
  {
    PersistentAnalysis(
      MapSeq(s.projects, ProjectFrom),
      s.resolvedProjects,
      MapSeq(s.resolutionFailedProjects, FailedProjectFrom),
      s.downloadedArtifacts,
      MapSeq(s.downloadFailedArtifacts, FailedArtifactFrom),
      s.analyzedArtifacts,
      MapSeq(s.analysisFailedArtifacts, FailedArtifactFrom),
      MapSeq(s.resolvedArtifacts, ResolvedArtifactFrom),
      MapSeq(s.resolutionFailedArtifacts, FailedArtifactFrom),
      MapSeq(s.completedArtifacts, FromCompleted))
  }

  /** `addTo`: convert each element of `source` in turn and add it to
      `target`; the first conversion that throws ends the load. */
  function Load<P, T>(source: seq<P>, convert: P -> Result<T>, target: seq<T>, key: T -> seq<string>): Result<seq<T>>
  {
    var xs :- CollectResults(MapSeq(source, convert));
    Ok(AddAll(target, xs, key))
  }

  method AddTo<P, T>(source: seq<P>, convert: P -> Result<T>, target: seq<T>, key: T -> seq<string>)
    returns (r: Result<seq<T>>)
    ensures r == Load(source, convert, target, key)
  {
    var added := target;
    ghost var converted: seq<T> := [];
    var i := 0;
    while i < |source|
      invariant 0 <= i <= |source| && |converted| == i
      invariant forall j :: 0 <= j < i ==> convert(source[j]) == Ok(converted[j])
      invariant added == AddAll(target, converted, key)
    {
      var x := convert(source[i]);
      if x.Err? {
        CollectFirstError(MapSeq(source, convert), i);
        return Err(x.error);
      }
      AddAllSnoc(target, converted, x.value, key);
      converted := converted + [x.value];
      added := Add(added, x.value, key);
      i := i + 1;
    }
    assert CollectResults(MapSeq(source, convert)).value == converted;
    return Ok(added);
  }

  /** `from`: every step's list loaded into its set, in the order of the
      steps; the first malformed entry fails the whole load. */
  function LoadStore(p: PersistentAnalysis): Result<Store>
  {
    var withProjects :- LoadProjectSets(p, EmptyStore);
    var withAnalyses :- LoadDownloadAndAnalysisSets(p, withProjects);
    LoadResolutionAndResultSets(p, withAnalyses)
  }

  /** The first three steps: projects, resolved and unresolvable projects. */
  function LoadProjectSets(p: PersistentAnalysis, s: Store): Result<Store>
  {
    var projects :- Load(p.projects, ToProject, [], ProjectKey);
    var resolvedProjects :- Load(p.resolvedProjects, Unconverted, [], ResolvedProjectKey);
    var resolutionFailedProjects :- Load(p.resolutionFailedProjects, ToFailedProject, [], FailedProjectKey);
    Ok(s.(projects := projects, resolvedProjects := resolvedProjects, resolutionFailedProjects := resolutionFailedProjects))
  }

  /** The download and analysis steps, each with its failures. */
  function LoadDownloadAndAnalysisSets(p: PersistentAnalysis, s: Store): Result<Store>
  {
    var downloadedArtifacts :- Load(p.downloadedArtifacts, Unconverted, [], DownloadedKey);
    var downloadFailedArtifacts :- Load(p.downloadFailedArtifacts, ToFailedArtifact, [], FailedArtifactKey);
    var analyzedArtifacts :- Load(p.analyzedArtifacts, Unconverted, [], AnalyzedKey);
    var analysisFailedArtifacts :- Load(p.analysisFailedArtifacts, ToFailedArtifact, [], FailedArtifactKey);
    Ok(s.(downloadedArtifacts := downloadedArtifacts, downloadFailedArtifacts := downloadFailedArtifacts,
          analyzedArtifacts := analyzedArtifacts, analysisFailedArtifacts := analysisFailedArtifacts))
  }

  /** Artifact resolution, its failures and the completed artifacts. */
  function LoadResolutionAndResultSets(p: PersistentAnalysis, s: Store): Result<Store>
  {
    var resolvedArtifacts :- Load(p.resolvedArtifacts, ToResolvedArtifact, [], ResolvedArtifactKey);
    var resolutionFailedArtifacts :- Load(p.resolutionFailedArtifacts, ToFailedArtifact, [], FailedArtifactKey);
    var completedArtifacts :- Load(p.completedArtifacts, ToCompleted, [], CompletedKey);
    Ok(s.(resolvedArtifacts := resolvedArtifacts, resolutionFailedArtifacts := resolutionFailedArtifacts,
          completedArtifacts := completedArtifacts))
  }

  /** Loading into an empty set gives an ordered set whose coordinates are
      exactly those of the converted entries. */
  lemma LoadIntoEmpty<P, T>(source: seq<P>, convert: P -> Result<T>, key: T -> seq<string>)
    ensures var r := Load(source, convert, [], key);
      r.Ok? ==> Sorted(r.value, key) && Keys(r.value, key) == Keys(CollectResults(MapSeq(source, convert)).value, key)
  {
    var c := CollectResults(MapSeq(source, convert));
    if c.Ok? {
      AddAllSpec([], c.value, key);
      assert Keys([], key) == {};
    }
  }

  /** Whatever `from` loads is ordered. */
  lemma LoadStoreOrdered(p: PersistentAnalysis)
    ensures LoadStore(p).Ok? ==> Ordered(LoadStore(p).value)
  {
    LoadIntoEmpty(p.projects, ToProject, ProjectKey);
    LoadIntoEmpty(p.resolvedProjects, Unconverted, ResolvedProjectKey);
    LoadIntoEmpty(p.resolutionFailedProjects, ToFailedProject, FailedProjectKey);
    LoadIntoEmpty(p.downloadedArtifacts, Unconverted, DownloadedKey);
    LoadIntoEmpty(p.downloadFailedArtifacts, ToFailedArtifact, FailedArtifactKey);
    LoadIntoEmpty(p.analyzedArtifacts, Unconverted, AnalyzedKey);
    LoadIntoEmpty(p.analysisFailedArtifacts, ToFailedArtifact, FailedArtifactKey);
    LoadIntoEmpty(p.resolvedArtifacts, ToResolvedArtifact, ResolvedArtifactKey);
    LoadIntoEmpty(p.resolutionFailedArtifacts, ToFailedArtifact, FailedArtifactKey);
    LoadIntoEmpty(p.completedArtifacts, ToCompleted, CompletedKey);
  }

  /** A sorted list whose entries convert back to `restore` of themselves,
      with the same coordinates, loads back as the restored list. */
  lemma LoadSortedList<T, P>(xs: seq<T>, save: T -> P, convert: P -> Result<T>, restore: T -> T, key: T -> seq<string>)
    requires Sorted(xs, key)
    requires forall i :: 0 <= i < |xs| ==> convert(save(xs[i])) == Ok(restore(xs[i]))
    requires forall i :: 0 <= i < |xs| ==> key(restore(xs[i])) == key(xs[i])
    ensures Load(MapSeq(xs, save), convert, [], key) == Ok(MapSeq(xs, restore))
  {
    var rs := MapSeq(MapSeq(xs, save), convert);
    var ys := MapSeq(xs, restore);
    assert CollectResults(rs) == Ok(ys) by {
      var saved := MapSeq(xs, save);
      forall i | 0 <= i < |rs| ensures rs[i] == Ok(ys[i]) {
        assert rs[i] == convert(saved[i]) && saved[i] == save(xs[i]);
      }
      var c := CollectResults(rs);
      assert c.Ok?;
      assert forall i :: 0 <= i < |ys| ==> c.value[i] == ys[i];
      assert c.value == ys;
    }
    assert AddAll([], ys, key) == ys by {
      forall i, j | 0 <= i < j < |ys| ensures CompareFields(key(ys[i]), key(ys[j])) < 0 {
        assert ys[i] == restore(xs[i]) && ys[j] == restore(xs[j]);
      }
      assert [] + ys == ys;
      AddAllAscending([], ys, key);
    }
  }

  /** `Same` is the identity, used to save steps that need no conversion. */
  function Same<T>(x: T): T
  {
    x
  }

  lemma LoadSortedUnconverted<T>(xs: seq<T>, key: T -> seq<string>)
    requires Sorted(xs, key)
    ensures Load(xs, Unconverted, [], key) == Ok(xs)
  {
    LoadSortedList(xs, Same, Unconverted, Same, key);
    assert MapSeq(xs, Same) == xs;
  }

  /** Failures come back carried by a new plain exception with the same
      message. */
  function ReloadedFailedProject(f: FailedProject): FailedProject
  {
    FailedProject(f.project, Reloaded(f.error.message))
  }

  function ReloadedFailedArtifact(f: FailedArtifact): FailedArtifact
  {
    FailedArtifact(f.artifact, Reloaded(f.error.message))
  }

  /** What loading a saved store gives back. */
  function ReloadedStore(s: Store): Store
  {
    s.(resolutionFailedProjects := MapSeq(s.resolutionFailedProjects, ReloadedFailedProject),
       downloadFailedArtifacts := MapSeq(s.downloadFailedArtifacts, ReloadedFailedArtifact),
       analysisFailedArtifacts := MapSeq(s.analysisFailedArtifacts, ReloadedFailedArtifact),
       resolutionFailedArtifacts := MapSeq(s.resolutionFailedArtifacts, ReloadedFailedArtifact),
       completedArtifacts := MapSeq(s.completedArtifacts, Restored))
  }

  /** Every coordinates in the store survive the text codec, and every
      completed artifact is well formed. */
  ghost predicate Saveable(s: Store)
  {
    && (forall i :: 0 <= i < |s.projects| ==> ProjectCodecSafe(s.projects[i]))
    && (forall i :: 0 <= i < |s.resolutionFailedProjects| ==> ProjectCodecSafe(s.resolutionFailedProjects[i].project))
    && (forall i :: 0 <= i < |s.downloadFailedArtifacts| ==> ArtifactCodecSafe(s.downloadFailedArtifacts[i].artifact))
    && (forall i :: 0 <= i < |s.analysisFailedArtifacts| ==> ArtifactCodecSafe(s.analysisFailedArtifacts[i].artifact))
    && (forall i :: 0 <= i < |s.resolutionFailedArtifacts| ==> ArtifactCodecSafe(s.resolutionFailedArtifacts[i].artifact))
    && (forall i :: 0 <= i < |s.resolvedArtifacts| ==>
          ArtifactCodecSafe(s.resolvedArtifacts[i].artifact)
          && forall j :: 0 <= j < |s.resolvedArtifacts[i].dependees| ==> ArtifactCodecSafe(s.resolvedArtifacts[i].dependees[j]))
    && (forall i :: 0 <= i < |s.completedArtifacts| ==>
          WellFormed(s.completedArtifacts[i]) && CodecSafe(s.completedArtifacts[i]))
  }

  /** Writing an ordered store and reading it back gives every set back in
      the same order, with the failures re-created from their messages. */
  lemma PersistRoundTrip(s: Store)
    requires Ordered(s) && Saveable(s)
    ensures LoadStore(Persist(s)) == Ok(ReloadedStore(s))
  {
    ProjectSetsRoundTrip(s, EmptyStore);
    var withProjects := LoadProjectSets(Persist(s), EmptyStore).value;
    DownloadAndAnalysisSetsRoundTrip(s, withProjects);
    var withAnalyses := LoadDownloadAndAnalysisSets(Persist(s), withProjects).value;
    ResolutionAndResultSetsRoundTrip(s, withAnalyses);
  }

  lemma ProjectSetsRoundTrip(s: Store, t: Store)
    requires Ordered(s) && Saveable(s)
    ensures LoadProjectSets(Persist(s), t) == Ok(t.(projects := s.projects, resolvedProjects := s.resolvedProjects,
      resolutionFailedProjects := MapSeq(s.resolutionFailedProjects, ReloadedFailedProject)))
  {
    forall i | 0 <= i < |s.projects| ensures ToProject(ProjectFrom(s.projects[i])) == Ok(Same(s.projects[i])) {
      ProjectRoundTrip(s.projects[i]);
    }
    LoadSortedList(s.projects, ProjectFrom, ToProject, Same, ProjectKey);
    assert MapSeq(s.projects, Same) == s.projects;
    LoadSortedUnconverted(s.resolvedProjects, ResolvedProjectKey);
    forall i | 0 <= i < |s.resolutionFailedProjects|
      ensures ToFailedProject(FailedProjectFrom(s.resolutionFailedProjects[i])) == Ok(ReloadedFailedProject(s.resolutionFailedProjects[i]))
    {
      ProjectRoundTrip(s.resolutionFailedProjects[i].project);
    }
    LoadSortedList(s.resolutionFailedProjects, FailedProjectFrom, ToFailedProject, ReloadedFailedProject, FailedProjectKey);
  }

  lemma DownloadAndAnalysisSetsRoundTrip(s: Store, t: Store)
    requires Ordered(s) && Saveable(s)
    ensures LoadDownloadAndAnalysisSets(Persist(s), t) == Ok(t.(downloadedArtifacts := s.downloadedArtifacts,
      downloadFailedArtifacts := MapSeq(s.downloadFailedArtifacts, ReloadedFailedArtifact),
      analyzedArtifacts := s.analyzedArtifacts,
      analysisFailedArtifacts := MapSeq(s.analysisFailedArtifacts, ReloadedFailedArtifact)))
  {
    LoadSortedUnconverted(s.downloadedArtifacts, DownloadedKey);
    FailedArtifactsRoundTrip(s.downloadFailedArtifacts);
    LoadSortedUnconverted(s.analyzedArtifacts, AnalyzedKey);
    FailedArtifactsRoundTrip(s.analysisFailedArtifacts);
  }

  lemma ResolutionAndResultSetsRoundTrip(s: Store, t: Store)
    requires Ordered(s) && Saveable(s)
    ensures LoadResolutionAndResultSets(Persist(s), t) == Ok(t.(resolvedArtifacts := s.resolvedArtifacts,
      resolutionFailedArtifacts := MapSeq(s.resolutionFailedArtifacts, ReloadedFailedArtifact),
      completedArtifacts := MapSeq(s.completedArtifacts, Restored)))
  {
    forall i | 0 <= i < |s.resolvedArtifacts|
      ensures ToResolvedArtifact(ResolvedArtifactFrom(s.resolvedArtifacts[i])) == Ok(Same(s.resolvedArtifacts[i]))
    {
      ResolvedArtifactRoundTrip(s.resolvedArtifacts[i]);
    }
    LoadSortedList(s.resolvedArtifacts, ResolvedArtifactFrom, ToResolvedArtifact, Same, ResolvedArtifactKey);
    assert MapSeq(s.resolvedArtifacts, Same) == s.resolvedArtifacts;
    FailedArtifactsRoundTrip(s.resolutionFailedArtifacts);
    forall i | 0 <= i < |s.completedArtifacts|
      ensures ToCompleted(FromCompleted(s.completedArtifacts[i])) == Ok(Restored(s.completedArtifacts[i]))
      ensures CompletedKey(Restored(s.completedArtifacts[i])) == CompletedKey(s.completedArtifacts[i])
    {
      CompletedRoundTrip(s.completedArtifacts[i]);
      RestoredKeeps(s.completedArtifacts[i]);
    }
    LoadSortedList(s.completedArtifacts, FromCompleted, ToCompleted, Restored, CompletedKey);
  }

  lemma FailedArtifactsRoundTrip(fs: seq<FailedArtifact>)
    requires Sorted(fs, FailedArtifactKey)
    requires forall i :: 0 <= i < |fs| ==> ArtifactCodecSafe(fs[i].artifact)
    ensures Load(MapSeq(fs, FailedArtifactFrom), ToFailedArtifact, [], FailedArtifactKey)
      == Ok(MapSeq(fs, ReloadedFailedArtifact))
  {
    forall i | 0 <= i < |fs| ensures ToFailedArtifact(FailedArtifactFrom(fs[i])) == Ok(ReloadedFailedArtifact(fs[i])) {
      ArtifactRoundTrip(fs[i].artifact);
    }
    LoadSortedList(fs, FailedArtifactFrom, ToFailedArtifact, ReloadedFailedArtifact, FailedArtifactKey);
  }

  /** Each set of `s` with the matching items of `sent` added in order, as
      the `add` methods do one item at a time. */
  function Merge(s: Store, sent: Store): Store
  {
    Store(
      AddAll(s.projects, sent.projects, ProjectKey),
      AddAll(s.resolvedProjects, sent.resolvedProjects, ResolvedProjectKey),
      AddAll(s.resolutionFailedProjects, sent.resolutionFailedProjects, FailedProjectKey),
      AddAll(s.downloadedArtifacts, sent.downloadedArtifacts, DownloadedKey),
      AddAll(s.downloadFailedArtifacts, sent.downloadFailedArtifacts, FailedArtifactKey),
      AddAll(s.analyzedArtifacts, sent.analyzedArtifacts, AnalyzedKey),
      AddAll(s.analysisFailedArtifacts, sent.analysisFailedArtifacts, FailedArtifactKey),
      AddAll(s.resolvedArtifacts, sent.resolvedArtifacts, ResolvedArtifactKey),
      AddAll(s.resolutionFailedArtifacts, sent.resolutionFailedArtifacts, FailedArtifactKey),
      AddAll(s.completedArtifacts, sent.completedArtifacts, CompletedKey))
  }

  /** Merging keeps every set ordered, and each set then holds the
      coordinates it held before and those of the items sent, no others. */
  lemma MergeKeepsOrder(s: Store, sent: Store)
    requires Ordered(s)
    ensures Ordered(Merge(s, sent))
    ensures Keys(Merge(s, sent).projects, ProjectKey)
      == Keys(s.projects, ProjectKey) + Keys(sent.projects, ProjectKey)
    ensures Keys(Merge(s, sent).resolvedProjects, ResolvedProjectKey)
      == Keys(s.resolvedProjects, ResolvedProjectKey) + Keys(sent.resolvedProjects, ResolvedProjectKey)
    ensures Keys(Merge(s, sent).resolutionFailedProjects, FailedProjectKey)
      == Keys(s.resolutionFailedProjects, FailedProjectKey) + Keys(sent.resolutionFailedProjects, FailedProjectKey)
    ensures Keys(Merge(s, sent).downloadedArtifacts, DownloadedKey)
      == Keys(s.downloadedArtifacts, DownloadedKey) + Keys(sent.downloadedArtifacts, DownloadedKey)
    ensures Keys(Merge(s, sent).downloadFailedArtifacts, FailedArtifactKey)
      == Keys(s.downloadFailedArtifacts, FailedArtifactKey) + Keys(sent.downloadFailedArtifacts, FailedArtifactKey)
    ensures Keys(Merge(s, sent).analyzedArtifacts, AnalyzedKey)
      == Keys(s.analyzedArtifacts, AnalyzedKey) + Keys(sent.analyzedArtifacts, AnalyzedKey)
    ensures Keys(Merge(s, sent).analysisFailedArtifacts, FailedArtifactKey)
      == Keys(s.analysisFailedArtifacts, FailedArtifactKey) + Keys(sent.analysisFailedArtifacts, FailedArtifactKey)
    ensures Keys(Merge(s, sent).resolvedArtifacts, ResolvedArtifactKey)
      == Keys(s.resolvedArtifacts, ResolvedArtifactKey) + Keys(sent.resolvedArtifacts, ResolvedArtifactKey)
    ensures Keys(Merge(s, sent).resolutionFailedArtifacts, FailedArtifactKey)
      == Keys(s.resolutionFailedArtifacts, FailedArtifactKey) + Keys(sent.resolutionFailedArtifacts, FailedArtifactKey)
    ensures Keys(Merge(s, sent).completedArtifacts, CompletedKey)
      == Keys(s.completedArtifacts, CompletedKey) + Keys(sent.completedArtifacts, CompletedKey)
  {
    AddAllSpec(s.projects, sent.projects, ProjectKey);
    AddAllSpec(s.resolvedProjects, sent.resolvedProjects, ResolvedProjectKey);
    AddAllSpec(s.resolutionFailedProjects, sent.resolutionFailedProjects, FailedProjectKey);
    AddAllSpec(s.downloadedArtifacts, sent.downloadedArtifacts, DownloadedKey);
    AddAllSpec(s.downloadFailedArtifacts, sent.downloadFailedArtifacts, FailedArtifactKey);
    AddAllSpec(s.analyzedArtifacts, sent.analyzedArtifacts, AnalyzedKey);
    AddAllSpec(s.analysisFailedArtifacts, sent.analysisFailedArtifacts, FailedArtifactKey);
    AddAllSpec(s.resolvedArtifacts, sent.resolvedArtifacts, ResolvedArtifactKey);
    AddAllSpec(s.resolutionFailedArtifacts, sent.resolutionFailedArtifacts, FailedArtifactKey);
    AddAllSpec(s.completedArtifacts, sent.completedArtifacts, CompletedKey);
  }

  /** `YamlAnalysisPersistence`: the ten sets, filled by the `add` methods. */
  class YamlAnalysisPersistence {
    var projects: seq<ProjectCoordinates>
    var resolvedProjects: seq<ResolvedProject>
    var resolutionFailedProjects: seq<FailedProject>
    var downloadedArtifacts: seq<DownloadedArtifact>
    var downloadFailedArtifacts: seq<FailedArtifact>
    var analyzedArtifacts: seq<AnalyzedArtifact>
    var analysisFailedArtifacts: seq<FailedArtifact>
    var resolvedArtifacts: seq<ResolvedArtifact>
    var resolutionFailedArtifacts: seq<FailedArtifact>
    var completedArtifacts: seq<CompletedArtifact>

    function Contents(): Store
      reads this
    {
      Store(projects, resolvedProjects, resolutionFailedProjects, downloadedArtifacts, downloadFailedArtifacts,
        analyzedArtifacts, analysisFailedArtifacts, resolvedArtifacts, resolutionFailedArtifacts, completedArtifacts)
    }

    ghost predicate Valid()
      reads this
    {
      Ordered(Contents())
    }

    /** `empty()`. */
    constructor Empty()
      ensures Contents() == EmptyStore && Valid()
    {
      projects, resolvedProjects, resolutionFailedProjects := [], [], [];
      downloadedArtifacts, downloadFailedArtifacts := [], [];
      analyzedArtifacts, analysisFailedArtifacts := [], [];
      resolvedArtifacts, resolutionFailedArtifacts := [], [];
      completedArtifacts := [];
    }

    /** The store holding `s`. */
    constructor Holding(s: Store)
      requires Ordered(s)
      ensures Contents() == s && Valid()
    {
      projects, resolvedProjects, resolutionFailedProjects := s.projects, s.resolvedProjects, s.resolutionFailedProjects;
      downloadedArtifacts, downloadFailedArtifacts := s.downloadedArtifacts, s.downloadFailedArtifacts;
      analyzedArtifacts, analysisFailedArtifacts := s.analyzedArtifacts, s.analysisFailedArtifacts;
      resolvedArtifacts, resolutionFailedArtifacts := s.resolvedArtifacts, s.resolutionFailedArtifacts;
      completedArtifacts := s.completedArtifacts;
    }

    /** `from`: the sets of an empty store filled step by step with `addTo`. */
    static method From(p: PersistentAnalysis) returns (r: Result<YamlAnalysisPersistence>)
      ensures r.Ok? <==> LoadStore(p).Ok?
      ensures r.Err? ==> r.error == LoadStore(p).error
      ensures r.Ok? ==> fresh(r.value) && r.value.Contents() == LoadStore(p).value && r.value.Valid()
    {
      var loaded := AddAllSteps(p);
      if loaded.Err? {
        return Err(loaded.error);
      }
      LoadStoreOrdered(p);
      var yaml := new YamlAnalysisPersistence.Holding(loaded.value);
      return Ok(yaml);
    }

    static method AddAllSteps(p: PersistentAnalysis) returns (r: Result<Store>)
      ensures r == LoadStore(p)
    {
      var withProjects :- AddProjectSteps(p, EmptyStore);
      var withAnalyses :- AddDownloadAndAnalysisSteps(p, withProjects);
      r := AddResolutionAndResultSteps(p, withAnalyses);
    }

    static method AddProjectSteps(p: PersistentAnalysis, s: Store) returns (r: Result<Store>)
      ensures r == LoadProjectSets(p, s)
    {
      var projects :- AddTo(p.projects, ToProject, [], ProjectKey);
      var resolvedProjects :- AddTo(p.resolvedProjects, Unconverted, [], ResolvedProjectKey);
      var resolutionFailedProjects :- AddTo(p.resolutionFailedProjects, ToFailedProject, [], FailedProjectKey);
      return Ok(s.(projects := projects, resolvedProjects := resolvedProjects, resolutionFailedProjects := resolutionFailedProjects));
    }

    static method AddDownloadAndAnalysisSteps(p: PersistentAnalysis, s: Store) returns (r: Result<Store>)
      ensures r == LoadDownloadAndAnalysisSets(p, s)
    {
      var downloadedArtifacts :- AddTo(p.downloadedArtifacts, Unconverted, [], DownloadedKey);
      var downloadFailedArtifacts :- AddTo(p.downloadFailedArtifacts, ToFailedArtifact, [], FailedArtifactKey);
      var analyzedArtifacts :- AddTo(p.analyzedArtifacts, Unconverted, [], AnalyzedKey);
      var analysisFailedArtifacts :- AddTo(p.analysisFailedArtifacts, ToFailedArtifact, [], FailedArtifactKey);
      return Ok(s.(downloadedArtifacts := downloadedArtifacts, downloadFailedArtifacts := downloadFailedArtifacts,
        analyzedArtifacts := analyzedArtifacts, analysisFailedArtifacts := analysisFailedArtifacts));
    }

    static method AddResolutionAndResultSteps(p: PersistentAnalysis, s: Store) returns (r: Result<Store>)
      ensures r == LoadResolutionAndResultSets(p, s)
    {
      var resolvedArtifacts :- AddTo(p.resolvedArtifacts, ToResolvedArtifact, [], ResolvedArtifactKey);
      var resolutionFailedArtifacts :- AddTo(p.resolutionFailedArtifacts, ToFailedArtifact, [], FailedArtifactKey);
      var completedArtifacts :- AddTo(p.completedArtifacts, ToCompleted, [], CompletedKey);
      return Ok(s.(resolvedArtifacts := resolvedArtifacts, resolutionFailedArtifacts := resolutionFailedArtifacts,
        completedArtifacts := completedArtifacts));
    }

    /** `fromString`: the empty string is an empty store; otherwise the
        record the YAML parser read from it (`None` for a document without
        content, on which `from` throws) is loaded. */
    static method FromString(yamlString: string, read: Option<PersistentAnalysis>) returns (r: Result<YamlAnalysisPersistence>)
      ensures yamlString == [] ==> r.Ok? && r.value.Contents() == EmptyStore
      ensures yamlString != [] && read.None? ==> r == Err(NullPointer)
      ensures yamlString != [] && read.Some? ==>
        (r.Ok? <==> LoadStore(read.value).Ok?) && (r.Ok? ==> r.value.Contents() == LoadStore(read.value).value)
      ensures r.Ok? ==> fresh(r.value) && r.value.Valid()
    {
      if yamlString == [] {
        var yaml := new YamlAnalysisPersistence.Empty();
        return Ok(yaml);
      }
      if read.None? {
        return Err(NullPointer);
      }
      r := From(read.value);
    }

    /** `fromStream`: nothing read is an empty store. */
    static method FromStream(read: Option<PersistentAnalysis>) returns (r: Result<YamlAnalysisPersistence>)
      ensures read.None? ==> r.Ok? && r.value.Contents() == EmptyStore
      ensures read.Some? ==>
        (r.Ok? <==> LoadStore(read.value).Ok?) && (r.Ok? ==> r.value.Contents() == LoadStore(read.value).value)
      ensures r.Ok? ==> fresh(r.value) && r.value.Valid()
    {
      if read.None? {
        var yaml := new YamlAnalysisPersistence.Empty();
        return Ok(yaml);
      }
      r := From(read.value);
    }

    /** `toPersistentAnalysis`: reading back what it writes restores every
        set (see `PersistRoundTrip`). */
    function ToPersistentAnalysis(): PersistentAnalysis
      reads this
    {
      Persist(Contents())
    }

    method AddProject(project: ProjectCoordinates)
      requires Valid()
      modifies this
      ensures Valid()
      ensures Contents() == old(Contents()).(projects := Add(old(projects), project, ProjectKey))
      ensures Keys(projects, ProjectKey) == old(Keys(projects, ProjectKey)) + {ProjectKey(project)}
      ensures ProjectKey(project) in old(Keys(projects, ProjectKey)) ==> projects == old(projects)
    {
      AddSpec(projects, project, ProjectKey);
      projects := Add(projects, project, ProjectKey);
    }

    method AddResolvedProject(project: ResolvedProject)
      requires Valid()
      modifies this
      ensures Valid()
      ensures Contents() == old(Contents()).(resolvedProjects := Add(old(resolvedProjects), project, ResolvedProjectKey))
      ensures Keys(resolvedProjects, ResolvedProjectKey) == old(Keys(resolvedProjects, ResolvedProjectKey)) + {ResolvedProjectKey(project)}
      ensures ResolvedProjectKey(project) in old(Keys(resolvedProjects, ResolvedProjectKey)) ==> resolvedProjects == old(resolvedProjects)
    {
      AddSpec(resolvedProjects, project, ResolvedProjectKey);
      resolvedProjects := Add(resolvedProjects, project, ResolvedProjectKey);
    }

    method AddProjectResolutionError(project: FailedProject)
      requires Valid()
      modifies this
      ensures Valid()
      ensures Contents() == old(Contents()).(resolutionFailedProjects := Add(old(resolutionFailedProjects), project, FailedProjectKey))
      ensures Keys(resolutionFailedProjects, FailedProjectKey) == old(Keys(resolutionFailedProjects, FailedProjectKey)) + {FailedProjectKey(project)}
      ensures FailedProjectKey(project) in old(Keys(resolutionFailedProjects, FailedProjectKey)) ==> resolutionFailedProjects == old(resolutionFailedProjects)
    {
      AddSpec(resolutionFailedProjects, project, FailedProjectKey);
      resolutionFailedProjects := Add(resolutionFailedProjects, project, FailedProjectKey);
    }

    method AddDownloadedArtifact(artifact: DownloadedArtifact)
      requires Valid()
      modifies this
      ensures Valid()
      ensures Contents() == old(Contents()).(downloadedArtifacts := Add(old(downloadedArtifacts), artifact, DownloadedKey))
      ensures Keys(downloadedArtifacts, DownloadedKey) == old(Keys(downloadedArtifacts, DownloadedKey)) + {DownloadedKey(artifact)}
      ensures DownloadedKey(artifact) in old(Keys(downloadedArtifacts, DownloadedKey)) ==> downloadedArtifacts == old(downloadedArtifacts)
    {
      AddSpec(downloadedArtifacts, artifact, DownloadedKey);
      downloadedArtifacts := Add(downloadedArtifacts, artifact, DownloadedKey);
    }

    method AddDownloadError(artifact: FailedArtifact)
      requires Valid()
      modifies this
      ensures Valid()
      ensures Contents() == old(Contents()).(downloadFailedArtifacts := Add(old(downloadFailedArtifacts), artifact, FailedArtifactKey))
      ensures Keys(downloadFailedArtifacts, FailedArtifactKey) == old(Keys(downloadFailedArtifacts, FailedArtifactKey)) + {FailedArtifactKey(artifact)}
      ensures FailedArtifactKey(artifact) in old(Keys(downloadFailedArtifacts, FailedArtifactKey)) ==> downloadFailedArtifacts == old(downloadFailedArtifacts)
    {
      AddSpec(downloadFailedArtifacts, artifact, FailedArtifactKey);
      downloadFailedArtifacts := Add(downloadFailedArtifacts, artifact, FailedArtifactKey);
    }

    method AddAnalyzedArtifact(artifact: AnalyzedArtifact)
      requires Valid()
      modifies this
      ensures Valid()
      ensures Contents() == old(Contents()).(analyzedArtifacts := Add(old(analyzedArtifacts), artifact, AnalyzedKey))
      ensures Keys(analyzedArtifacts, AnalyzedKey) == old(Keys(analyzedArtifacts, AnalyzedKey)) + {AnalyzedKey(artifact)}
      ensures AnalyzedKey(artifact) in old(Keys(analyzedArtifacts, AnalyzedKey)) ==> analyzedArtifacts == old(analyzedArtifacts)
    {
      AddSpec(analyzedArtifacts, artifact, AnalyzedKey);
      analyzedArtifacts := Add(analyzedArtifacts, artifact, AnalyzedKey);
    }

    method AddAnalysisError(artifact: FailedArtifact)
      requires Valid()
      modifies this
      ensures Valid()
      ensures Contents() == old(Contents()).(analysisFailedArtifacts := Add(old(analysisFailedArtifacts), artifact, FailedArtifactKey))
      ensures Keys(analysisFailedArtifacts, FailedArtifactKey) == old(Keys(analysisFailedArtifacts, FailedArtifactKey)) + {FailedArtifactKey(artifact)}
      ensures FailedArtifactKey(artifact) in old(Keys(analysisFailedArtifacts, FailedArtifactKey)) ==> analysisFailedArtifacts == old(analysisFailedArtifacts)
    {
      AddSpec(analysisFailedArtifacts, artifact, FailedArtifactKey);
      analysisFailedArtifacts := Add(analysisFailedArtifacts, artifact, FailedArtifactKey);
    }

    method AddResolvedArtifact(artifact: ResolvedArtifact)
      requires Valid()
      modifies this
      ensures Valid()
      ensures Contents() == old(Contents()).(resolvedArtifacts := Add(old(resolvedArtifacts), artifact, ResolvedArtifactKey))
      ensures Keys(resolvedArtifacts, ResolvedArtifactKey) == old(Keys(resolvedArtifacts, ResolvedArtifactKey)) + {ResolvedArtifactKey(artifact)}
      ensures ResolvedArtifactKey(artifact) in old(Keys(resolvedArtifacts, ResolvedArtifactKey)) ==> resolvedArtifacts == old(resolvedArtifacts)
    {
      AddSpec(resolvedArtifacts, artifact, ResolvedArtifactKey);
      resolvedArtifacts := Add(resolvedArtifacts, artifact, ResolvedArtifactKey);
    }

    method AddArtifactResolutionError(artifact: FailedArtifact)
      requires Valid()
      modifies this
      ensures Valid()
      ensures Contents() == old(Contents()).(resolutionFailedArtifacts := Add(old(resolutionFailedArtifacts), artifact, FailedArtifactKey))
      ensures Keys(resolutionFailedArtifacts, FailedArtifactKey) == old(Keys(resolutionFailedArtifacts, FailedArtifactKey)) + {FailedArtifactKey(artifact)}
      ensures FailedArtifactKey(artifact) in old(Keys(resolutionFailedArtifacts, FailedArtifactKey)) ==> resolutionFailedArtifacts == old(resolutionFailedArtifacts)
    {
      AddSpec(resolutionFailedArtifacts, artifact, FailedArtifactKey);
      resolutionFailedArtifacts := Add(resolutionFailedArtifacts, artifact, FailedArtifactKey);
    }

    method AddResult(artifact: CompletedArtifact)
      requires Valid()
      modifies this
      ensures Valid()
      ensures Contents() == old(Contents()).(completedArtifacts := Add(old(completedArtifacts), artifact, CompletedKey))
      ensures Keys(completedArtifacts, CompletedKey) == old(Keys(completedArtifacts, CompletedKey)) + {CompletedKey(artifact)}
      ensures CompletedKey(artifact) in old(Keys(completedArtifacts, CompletedKey)) ==> completedArtifacts == old(completedArtifacts)
    {
      AddSpec(completedArtifacts, artifact, CompletedKey);
      completedArtifacts := Add(completedArtifacts, artifact, CompletedKey);
    }
  }
}
