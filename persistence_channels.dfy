/** The channels of a run that resumes from a persistence store: each
    channel replays what the store already holds and copies everything sent
    on it to a spy channel, which `updatePersistence` drains into the store. */
module PersistenceChannels {
  import opened Wrappers
  import opened Coordinates
  import opened CompletedArtifacts
  import opened Artifacts
  import opened SortedSets
  import opened Channels
  import opened YamlPersistence

  /** `Flags.REPLAY_DOWNLOADS` and `Flags.REPLAY_DOWNLOAD_ERRORS`. */
  const ReplayDownloads := true
  const ReplayDownloadErrors := true

  /** A replayed set: the stored items when the flag is set, nothing otherwise. */
  function Gated<X>(flag: bool, xs: seq<X>): seq<X>
  {
    if flag then xs else []
  }

  /** The shape the constructor builds: a simple channel, spied on by
      `spy` and wrapped in a replaying decorator. */
  ghost predicate ReplayedAndSpied<T, R, E>(ch: TaskChannel<T, R, E>, spy: SimpleTaskChannel<T, R, E>)
  {
    && ch.Replaying? && ch.decorated.Spying? && ch.decorated.decorated.Simple?
    && ch.decorated.listening == Simple(spy) && ch.decorated.decorated.channel != spy
  }

  /** A replayed and spied channel is a well-formed decorator stack. */
  lemma ReplayedAndSpiedValid<T, R, E>(ch: TaskChannel<T, R, E>, spy: SimpleTaskChannel<T, R, E>)
    requires ReplayedAndSpied(ch, spy)
    ensures Valid(ch)
  {
  }

  /** The output channel is spied on but not replayed. */
  ghost predicate Spied<T, R, E>(ch: TaskChannel<T, R, E>, spy: SimpleTaskChannel<T, R, E>)
  {
    && ch.Spying? && ch.decorated.Simple? && ch.listening == Simple(spy) && ch.decorated.channel != spy
  }

  /** A spied channel is a well-formed decorator stack. */
  lemma SpiedValid<T, R, E>(ch: TaskChannel<T, R, E>, spy: SimpleTaskChannel<T, R, E>)
    requires Spied(ch, spy)
    ensures Valid(ch)
  {
  }

  /** A simple channel under that name, with nothing queued. */
  ghost predicate Queued<T, R, E>(c: SimpleTaskChannel<T, R, E>, name: string)
    reads c
  {
    c.taskName == name && Untouched(c)
  }

  /** What queries on a replayed and spied channel see: the replay queues,
      then the decorated simple channel; never the spy. */
  lemma ShownByReplayedAndSpied<T, R, E>(ch: TaskChannel<T, R, E>, spy: SimpleTaskChannel<T, R, E>)
    requires ReplayedAndSpied(ch, spy)
    ensures Tasks(ch) == ch.replay.tasks + ch.decorated.decorated.channel.tasks
    ensures Results(ch) == ch.replay.results + ch.decorated.decorated.channel.results
    ensures Errors(ch) == ch.replay.errors + ch.decorated.decorated.channel.errors
    ensures TaskName(ch) == ch.decorated.decorated.channel.taskName
  {
    var spied := ch.decorated;
    assert Tasks(spied) == Tasks(spied.decorated);
    assert Results(spied) == Results(spied.decorated);
    assert Errors(spied) == Errors(spied.decorated);
  }

  /** A channel built as the constructor builds it, seen from outside:
      it is named `name`, has no tasks, shows exactly `results` and
      `errors`, and its spy has seen nothing yet. */
  ghost predicate ReplaysOnly<T, R, E>(ch: TaskChannel<T, R, E>, spy: SimpleTaskChannel<T, R, E>,
                                      name: string, results: seq<R>, errors: seq<E>)
    reads Leaves(ch), Replays(ch), spy
  {
    && ReplayedAndSpied(ch, spy)
    && TaskName(ch) == name && Tasks(ch) == [] && Results(ch) == results && Errors(ch) == errors
    && spy.tasks == [] && spy.results == [] && spy.errors == []
  }

  /** The same channel described by the fields of its three parts. */
  ghost predicate Built<T, R, E>(ch: TaskChannel<T, R, E>, spy: SimpleTaskChannel<T, R, E>,
                                name: string, results: seq<R>, errors: seq<E>)
    reads Leaves(ch), Replays(ch), spy
  {
    && ReplayedAndSpied(ch, spy)
    && Holds(ch.replay, results, errors)
    && (assert ch.decorated.decorated.channel in Leaves(ch.decorated);
        Queued(ch.decorated.decorated.channel, name))
    && Untouched(spy)
  }

  /** Replay queues that hold `results` and `errors` and no tasks. */
  ghost predicate Holds<T, R, E>(q: ReplayQueues<T, R, E>, results: seq<R>, errors: seq<E>)
    reads q
  {
    q.tasks == [] && q.results == results && q.errors == errors
  }

  /** A simple channel with nothing in its queues. */
  ghost predicate Untouched<T, R, E>(c: SimpleTaskChannel<T, R, E>)
    reads c
  {
    c.tasks == [] && c.results == [] && c.errors == []
  }

  lemma BuiltReplaysOnly<T, R, E>(ch: TaskChannel<T, R, E>, spy: SimpleTaskChannel<T, R, E>,
                                 name: string, results: seq<R>, errors: seq<E>)
    requires Built(ch, spy, name, results, errors)
    ensures ReplaysOnly(ch, spy, name, results, errors)
  {
    ShownByReplayedAndSpied(ch, spy);
  }

  /** `namedAndUnbounded(name).spy(spy).replaying(results, errors)` with a
      fresh unbounded spy. */
  method ReplayedSpiedChannel<T, R, E>(name: string, spyName: string, results: seq<R>, errors: seq<E>)
    returns (ch: TaskChannel<T, R, E>, spy: SimpleTaskChannel<T, R, E>)
    ensures ReplayedAndSpied(ch, spy) && Holds(ch.replay, results, errors)
    ensures Queued(ch.decorated.decorated.channel, name) && Untouched(spy)
    ensures fresh(spy) && fresh(ch.replay) && fresh(ch.decorated.decorated.channel)
  {
    var spying := NamedAndUnbounded(spyName);
    var simple := NamedAndUnbounded(name);
    var spied := Spy(simple, spying);
    ch := ReplayResultsAndErrors(spied, results, errors);
    spy := spying.channel;
  }

  /** A channel that is named `name` and holds nothing. */
  ghost predicate ShowsNothing<T, R, E>(ch: TaskChannel<T, R, E>, name: string)
    reads Leaves(ch), Replays(ch)
  {
    TaskName(ch) == name && Tasks(ch) == [] && Results(ch) == [] && Errors(ch) == []
  }

  /** Queries on a spied channel see the decorated channel, never the spy. */
  lemma SpiedShowsNothing<T, R, E>(ch: TaskChannel<T, R, E>, spy: SimpleTaskChannel<T, R, E>, name: string)
    requires Spied(ch, spy) && Queued(ch.decorated.channel, name)
    ensures ShowsNothing(ch, name)
  {
    assert Tasks(ch) == Tasks(ch.decorated);
    assert Results(ch) == Results(ch.decorated);
    assert Errors(ch) == Errors(ch.decorated);
  }

  /** `namedAndUnbounded(name).spy(spy)` with a fresh unbounded spy. */
  method SpiedChannel<T, R, E>(name: string, spyName: string)
    returns (ch: TaskChannel<T, R, E>, spy: SimpleTaskChannel<T, R, E>)
    ensures Spied(ch, spy) && Untouched(spy)
    ensures Queued(ch.decorated.channel, name)
    ensures fresh(spy) && fresh(ch.decorated.channel)
  {
    var spying := NamedAndUnbounded(spyName);
    var simple := NamedAndUnbounded(name);
    ch := Spy(simple, spying);
    spy := spying.channel;
  }

  /** `PersistenceAnalysisTaskChannels`. The output channel carries the
      completed artifacts that the store's `addResult` takes. */
  class PersistenceAnalysisTaskChannels {
    const persistence: YamlAnalysisPersistence

    const addProjects: TaskChannel<(), ProjectCoordinates, Exception>
    const resolveVersions: TaskChannel<ProjectCoordinates, ResolvedProject, FailedProject>
    const downloadArtifacts: TaskChannel<ArtifactCoordinates, DownloadedArtifact, FailedArtifact>
    const analyzeArtifacts: TaskChannel<DownloadedArtifact, AnalyzedArtifact, FailedArtifact>
    const resolveDependencies: TaskChannel<ArtifactCoordinates, ResolvedArtifact, FailedArtifact>
    const outputResults: TaskChannel<CompletedArtifact, (), ()>

    const addProjectsSpy: SimpleTaskChannel<(), ProjectCoordinates, Exception>
    const resolveVersionsSpy: SimpleTaskChannel<ProjectCoordinates, ResolvedProject, FailedProject>
    const downloadArtifactsSpy: SimpleTaskChannel<ArtifactCoordinates, DownloadedArtifact, FailedArtifact>
    const analyzeArtifactsSpy: SimpleTaskChannel<DownloadedArtifact, AnalyzedArtifact, FailedArtifact>
    const resolveDependenciesSpy: SimpleTaskChannel<ArtifactCoordinates, ResolvedArtifact, FailedArtifact>
    const outputResultsSpy: SimpleTaskChannel<CompletedArtifact, (), ()>

    ghost predicate Valid()
      reads persistence
    {
      && persistence.Valid()
      && ReplayedAndSpied(addProjects, addProjectsSpy)
      && ReplayedAndSpied(resolveVersions, resolveVersionsSpy)
      && ReplayedAndSpied(downloadArtifacts, downloadArtifactsSpy)
      && ReplayedAndSpied(analyzeArtifacts, analyzeArtifactsSpy)
      && ReplayedAndSpied(resolveDependencies, resolveDependenciesSpy)
      && Spied(outputResults, outputResultsSpy)
    }

    /** Everything sent on the channels since the spies were last drained,
        grouped by the set of the store it belongs to. */
    function Pending(): Store
      reads addProjectsSpy, resolveVersionsSpy, downloadArtifactsSpy
      reads analyzeArtifactsSpy, resolveDependenciesSpy, outputResultsSpy
    {
      Store(
        addProjectsSpy.results, resolveVersionsSpy.results, resolveVersionsSpy.errors,
        downloadArtifactsSpy.results, downloadArtifactsSpy.errors,
        analyzeArtifactsSpy.results, analyzeArtifactsSpy.errors,
        resolveDependenciesSpy.results, resolveDependenciesSpy.errors,
        outputResultsSpy.tasks)
    }

    /** The channels as the constructor leaves them: each replayed channel
        holds the matching sets of the store in its replay queues (downloads
        only as the flags allow, no project errors), every simple channel
        under it and every spy is empty, and the output channel is only
        spied on. */
    ghost predicate Initial()
      reads persistence, addProjectsSpy, resolveVersionsSpy, downloadArtifactsSpy
      reads analyzeArtifactsSpy, resolveDependenciesSpy, outputResultsSpy
      reads Leaves(addProjects), Replays(addProjects), Leaves(resolveVersions), Replays(resolveVersions)
      reads Leaves(downloadArtifacts), Replays(downloadArtifacts), Leaves(analyzeArtifacts), Replays(analyzeArtifacts)
      reads Leaves(resolveDependencies), Replays(resolveDependencies), Leaves(outputResults)
    {
      && Built(addProjects, addProjectsSpy, "add project", persistence.projects, [])
      && Built(resolveVersions, resolveVersionsSpy, "version resolution",
        persistence.resolvedProjects, persistence.resolutionFailedProjects)
      && Built(downloadArtifacts, downloadArtifactsSpy, "download",
        Gated(ReplayDownloads, persistence.downloadedArtifacts),
        Gated(ReplayDownloadErrors, persistence.downloadFailedArtifacts))
      && Built(analyzeArtifacts, analyzeArtifactsSpy, "analysis",
        persistence.analyzedArtifacts, persistence.analysisFailedArtifacts)
      && Built(resolveDependencies, resolveDependenciesSpy, "dependency resolution",
        persistence.resolvedArtifacts, persistence.resolutionFailedArtifacts)
      && Spied(outputResults, outputResultsSpy)
      && (assert outputResults.decorated.channel in Leaves(outputResults);
          Queued(outputResults.decorated.channel, "output"))
      && Untouched(outputResultsSpy)
    }

    /** What the freshly built channels show: each replayed channel offers
        exactly the stored sets, the output channel nothing, and nothing
        has reached a spy, so nothing is pending for the store. */
    lemma InitialReplaysStore()
      requires Initial()
      ensures Pending() == EmptyStore
      ensures ReplaysOnly(addProjects, addProjectsSpy, "add project", persistence.projects, [])
      ensures ReplaysOnly(resolveVersions, resolveVersionsSpy, "version resolution",
        persistence.resolvedProjects, persistence.resolutionFailedProjects)
      ensures ReplaysOnly(downloadArtifacts, downloadArtifactsSpy, "download",
        Gated(ReplayDownloads, persistence.downloadedArtifacts),
        Gated(ReplayDownloadErrors, persistence.downloadFailedArtifacts))
      ensures ReplaysOnly(analyzeArtifacts, analyzeArtifactsSpy, "analysis",
        persistence.analyzedArtifacts, persistence.analysisFailedArtifacts)
      ensures ReplaysOnly(resolveDependencies, resolveDependenciesSpy, "dependency resolution",
        persistence.resolvedArtifacts, persistence.resolutionFailedArtifacts)
      ensures ShowsNothing(outputResults, "output")
    {
      BuiltReplaysOnly(addProjects, addProjectsSpy, "add project", persistence.projects, []);
      BuiltReplaysOnly(resolveVersions, resolveVersionsSpy, "version resolution",
        persistence.resolvedProjects, persistence.resolutionFailedProjects);
      BuiltReplaysOnly(downloadArtifacts, downloadArtifactsSpy, "download",
        Gated(ReplayDownloads, persistence.downloadedArtifacts),
        Gated(ReplayDownloadErrors, persistence.downloadFailedArtifacts));
      BuiltReplaysOnly(analyzeArtifacts, analyzeArtifactsSpy, "analysis",
        persistence.analyzedArtifacts, persistence.analysisFailedArtifacts);
      BuiltReplaysOnly(resolveDependencies, resolveDependenciesSpy, "dependency resolution",
        persistence.resolvedArtifacts, persistence.resolutionFailedArtifacts);
      SpiedShowsNothing(outputResults, outputResultsSpy, "output");
    }

    /** `PersistenceAnalysisTaskChannels(persistence)`: builds the channels
        over the given store (see `Initial` and `InitialReplaysStore`). */
    constructor (persistence: YamlAnalysisPersistence)
      requires persistence.Valid()
      ensures Valid() && this.persistence == persistence
      ensures Initial()
    {
      this.persistence := persistence;
      var addProjects, addProjectsSpy := ReplayedSpiedChannel("add project", "spying on add project",
        persistence.projects, []);
      var resolveVersions, resolveVersionsSpy := ReplayedSpiedChannel("version resolution", "spying on version resolution",
        persistence.resolvedProjects, persistence.resolutionFailedProjects);
      var downloadArtifacts, downloadArtifactsSpy := ReplayedSpiedChannel("download", "download",
        Gated(ReplayDownloads, persistence.downloadedArtifacts),
        Gated(ReplayDownloadErrors, persistence.downloadFailedArtifacts));
      var analyzeArtifacts, analyzeArtifactsSpy := ReplayedSpiedChannel("analysis", "spying on analysis",
        persistence.analyzedArtifacts, persistence.analysisFailedArtifacts);
      var resolveDependencies, resolveDependenciesSpy := ReplayedSpiedChannel("dependency resolution",
        "spying on dependency resolution", persistence.resolvedArtifacts, persistence.resolutionFailedArtifacts);
      var outputResults, outputResultsSpy := SpiedChannel("output", "spying on output");
      this.addProjects, this.addProjectsSpy := addProjects, addProjectsSpy;
      this.resolveVersions, this.resolveVersionsSpy := resolveVersions, resolveVersionsSpy;
      this.downloadArtifacts, this.downloadArtifactsSpy := downloadArtifacts, downloadArtifactsSpy;
      this.analyzeArtifacts, this.analyzeArtifactsSpy := analyzeArtifacts, analyzeArtifactsSpy;
      this.resolveDependencies, this.resolveDependenciesSpy := resolveDependencies, resolveDependenciesSpy;
      this.outputResults, this.outputResultsSpy := outputResults, outputResultsSpy;
    }

    /** `updatePersistence`: every item sent since the last call is added to
        the matching set of the store, in the order it was sent, and the
        spies are empty again. */
    method UpdatePersistence()
      requires Valid()
      modifies persistence, addProjectsSpy, resolveVersionsSpy, downloadArtifactsSpy
      modifies analyzeArtifactsSpy, resolveDependenciesSpy, outputResultsSpy
      ensures Valid()
      ensures persistence.Contents() == Merge(old(persistence.Contents()), old(Pending()))
      ensures Pending() == EmptyStore
    {
      UpdateProjectSets();
      UpdateDownloadAndAnalysisSets();
      UpdateResolutionAndResultSets();
    }

    method UpdateProjectSets()
      requires Valid()
      modifies persistence, addProjectsSpy, resolveVersionsSpy
      ensures Valid()
      ensures persistence.Contents() == old(persistence.Contents()).(
        projects := AddAll(old(persistence.projects), old(addProjectsSpy.results), ProjectKey),
        resolvedProjects := AddAll(old(persistence.resolvedProjects), old(resolveVersionsSpy.results), ResolvedProjectKey),
        resolutionFailedProjects := AddAll(old(persistence.resolutionFailedProjects), old(resolveVersionsSpy.errors), FailedProjectKey))
      ensures addProjectsSpy.results == [] && resolveVersionsSpy.results == [] && resolveVersionsSpy.errors == []
    {
      UpdateProjects();
      UpdateResolvedVersions();
    }

    method UpdateProjects()
      requires Valid()
      modifies persistence, addProjectsSpy
      ensures Valid()
      ensures persistence.Contents() == old(persistence.Contents()).(
        projects := AddAll(old(persistence.projects), old(addProjectsSpy.results), ProjectKey))
      ensures addProjectsSpy.results == []
    {
      var projects := DrainResults(Simple(addProjectsSpy));
      AddEachProject(persistence, projects);
    }

    method UpdateResolvedVersions()
      requires Valid()
      modifies persistence, resolveVersionsSpy
      ensures Valid()
      ensures persistence.Contents() == old(persistence.Contents()).(
        resolvedProjects := AddAll(old(persistence.resolvedProjects), old(resolveVersionsSpy.results), ResolvedProjectKey),
        resolutionFailedProjects := AddAll(old(persistence.resolutionFailedProjects), old(resolveVersionsSpy.errors), FailedProjectKey))
      ensures resolveVersionsSpy.results == [] && resolveVersionsSpy.errors == []
    {
      var resolvedProjects := DrainResults(Simple(resolveVersionsSpy));
      AddEachResolvedProject(persistence, resolvedProjects);
      var failedProjects := DrainErrors(Simple(resolveVersionsSpy));
      AddEachProjectResolutionError(persistence, failedProjects);
    }

    method UpdateDownloadAndAnalysisSets()
      requires Valid()
      modifies persistence, downloadArtifactsSpy, analyzeArtifactsSpy
      ensures Valid()
      ensures persistence.Contents() == old(persistence.Contents()).(
        downloadedArtifacts := AddAll(old(persistence.downloadedArtifacts), old(downloadArtifactsSpy.results), DownloadedKey),
        downloadFailedArtifacts := AddAll(old(persistence.downloadFailedArtifacts), old(downloadArtifactsSpy.errors), FailedArtifactKey),
        analyzedArtifacts := AddAll(old(persistence.analyzedArtifacts), old(analyzeArtifactsSpy.results), AnalyzedKey),
        analysisFailedArtifacts := AddAll(old(persistence.analysisFailedArtifacts), old(analyzeArtifactsSpy.errors), FailedArtifactKey))
      ensures downloadArtifactsSpy.results == [] && downloadArtifactsSpy.errors == []
      ensures analyzeArtifactsSpy.results == [] && analyzeArtifactsSpy.errors == []
    {
      UpdateDownloads();
      UpdateAnalyses();
    }

    method UpdateDownloads()
      requires Valid()
      modifies persistence, downloadArtifactsSpy
      ensures Valid()
      ensures persistence.Contents() == old(persistence.Contents()).(
        downloadedArtifacts := AddAll(old(persistence.downloadedArtifacts), old(downloadArtifactsSpy.results), DownloadedKey),
        downloadFailedArtifacts := AddAll(old(persistence.downloadFailedArtifacts), old(downloadArtifactsSpy.errors), FailedArtifactKey))
      ensures downloadArtifactsSpy.results == [] && downloadArtifactsSpy.errors == []
    {
      var downloaded := DrainResults(Simple(downloadArtifactsSpy));
      AddEachDownloadedArtifact(persistence, downloaded);
      var downloadFailed := DrainErrors(Simple(downloadArtifactsSpy));
      AddEachDownloadError(persistence, downloadFailed);
    }

    method UpdateAnalyses()
      requires Valid()
      modifies persistence, analyzeArtifactsSpy
      ensures Valid()
      ensures persistence.Contents() == old(persistence.Contents()).(
        analyzedArtifacts := AddAll(old(persistence.analyzedArtifacts), old(analyzeArtifactsSpy.results), AnalyzedKey),
        analysisFailedArtifacts := AddAll(old(persistence.analysisFailedArtifacts), old(analyzeArtifactsSpy.errors), FailedArtifactKey))
      ensures analyzeArtifactsSpy.results == [] && analyzeArtifactsSpy.errors == []
    {
      var analyzed := DrainResults(Simple(analyzeArtifactsSpy));
      AddEachAnalyzedArtifact(persistence, analyzed);
      var analysisFailed := DrainErrors(Simple(analyzeArtifactsSpy));
      AddEachAnalysisError(persistence, analysisFailed);
    }

    method UpdateResolutionAndResultSets()
      requires Valid()
      modifies persistence, resolveDependenciesSpy, outputResultsSpy
      ensures Valid()
      ensures persistence.Contents() == old(persistence.Contents()).(
        resolvedArtifacts := AddAll(old(persistence.resolvedArtifacts), old(resolveDependenciesSpy.results), ResolvedArtifactKey),
        resolutionFailedArtifacts := AddAll(old(persistence.resolutionFailedArtifacts), old(resolveDependenciesSpy.errors), FailedArtifactKey),
        completedArtifacts := AddAll(old(persistence.completedArtifacts), old(outputResultsSpy.tasks), CompletedKey))
      ensures resolveDependenciesSpy.results == [] && resolveDependenciesSpy.errors == [] && outputResultsSpy.tasks == []
    {
      UpdateResolvedDependencies();
      UpdateResults();
    }

    method UpdateResolvedDependencies()
      requires Valid()
      modifies persistence, resolveDependenciesSpy
      ensures Valid()
      ensures persistence.Contents() == old(persistence.Contents()).(
        resolvedArtifacts := AddAll(old(persistence.resolvedArtifacts), old(resolveDependenciesSpy.results), ResolvedArtifactKey),
        resolutionFailedArtifacts := AddAll(old(persistence.resolutionFailedArtifacts), old(resolveDependenciesSpy.errors), FailedArtifactKey))
      ensures resolveDependenciesSpy.results == [] && resolveDependenciesSpy.errors == []
    {
      var resolved := DrainResults(Simple(resolveDependenciesSpy));
      AddEachResolvedArtifact(persistence, resolved);
      var resolutionFailed := DrainErrors(Simple(resolveDependenciesSpy));
      AddEachArtifactResolutionError(persistence, resolutionFailed);
    }

    method UpdateResults()
      requires Valid()
      modifies persistence, outputResultsSpy
      ensures Valid()
      ensures persistence.Contents() == old(persistence.Contents()).(
        completedArtifacts := AddAll(old(persistence.completedArtifacts), old(outputResultsSpy.tasks), CompletedKey))
      ensures outputResultsSpy.tasks == []
    {
      var completed := DrainTasks(Simple(outputResultsSpy));
      AddEachResult(persistence, completed);
    }
  }

  // `forEach(persistence::add...)`: one item after the other.

  method AddEachProject(persistence: YamlAnalysisPersistence, xs: seq<ProjectCoordinates>)
    requires persistence.Valid()
    modifies persistence
    ensures persistence.Valid()
    ensures persistence.Contents() == old(persistence.Contents()).(projects := AddAll(old(persistence.projects), xs, ProjectKey))
  {
    ghost var before := persistence.Contents();
    var i := 0;
    while i < |xs|
      invariant 0 <= i <= |xs|
      invariant persistence.Valid()
      invariant persistence.Contents() == before.(projects := AddAll(before.projects, xs[..i], ProjectKey))
    {
      AddAllStep(before.projects, xs, i, ProjectKey);
      persistence.AddProject(xs[i]);
      i := i + 1;
    }
    assert xs[..i] == xs;
  }

  method AddEachResolvedProject(persistence: YamlAnalysisPersistence, xs: seq<ResolvedProject>)
    requires persistence.Valid()
    modifies persistence
    ensures persistence.Valid()
    ensures persistence.Contents() == old(persistence.Contents()).(resolvedProjects := AddAll(old(persistence.resolvedProjects), xs, ResolvedProjectKey))
  {
    ghost var before := persistence.Contents();
    var i := 0;
    while i < |xs|
      invariant 0 <= i <= |xs|
      invariant persistence.Valid()
      invariant persistence.Contents() == before.(resolvedProjects := AddAll(before.resolvedProjects, xs[..i], ResolvedProjectKey))
    {
      AddAllStep(before.resolvedProjects, xs, i, ResolvedProjectKey);
      persistence.AddResolvedProject(xs[i]);
      i := i + 1;
    }
    assert xs[..i] == xs;
  }

  method AddEachProjectResolutionError(persistence: YamlAnalysisPersistence, xs: seq<FailedProject>)
    requires persistence.Valid()
    modifies persistence
    ensures persistence.Valid()
    ensures persistence.Contents() == old(persistence.Contents()).(resolutionFailedProjects := AddAll(old(persistence.resolutionFailedProjects), xs, FailedProjectKey))
  {
    ghost var before := persistence.Contents();
    var i := 0;
    while i < |xs|
      invariant 0 <= i <= |xs|
      invariant persistence.Valid()
      invariant persistence.Contents() == before.(resolutionFailedProjects := AddAll(before.resolutionFailedProjects, xs[..i], FailedProjectKey))
    {
      AddAllStep(before.resolutionFailedProjects, xs, i, FailedProjectKey);
      persistence.AddProjectResolutionError(xs[i]);
      i := i + 1;
    }
    assert xs[..i] == xs;
  }

  method AddEachDownloadedArtifact(persistence: YamlAnalysisPersistence, xs: seq<DownloadedArtifact>)
    requires persistence.Valid()
    modifies persistence
    ensures persistence.Valid()
    ensures persistence.Contents() == old(persistence.Contents()).(downloadedArtifacts := AddAll(old(persistence.downloadedArtifacts), xs, DownloadedKey))
  {
    ghost var before := persistence.Contents();
    var i := 0;
    while i < |xs|
      invariant 0 <= i <= |xs|
      invariant persistence.Valid()
      invariant persistence.Contents() == before.(downloadedArtifacts := AddAll(before.downloadedArtifacts, xs[..i], DownloadedKey))
    {
      AddAllStep(before.downloadedArtifacts, xs, i, DownloadedKey);
      persistence.AddDownloadedArtifact(xs[i]);
      i := i + 1;
    }
    assert xs[..i] == xs;
  }

  method AddEachDownloadError(persistence: YamlAnalysisPersistence, xs: seq<FailedArtifact>)
    requires persistence.Valid()
    modifies persistence
    ensures persistence.Valid()
    ensures persistence.Contents() == old(persistence.Contents()).(downloadFailedArtifacts := AddAll(old(persistence.downloadFailedArtifacts), xs, FailedArtifactKey))
  {
    ghost var before := persistence.Contents();
    var i := 0;
    while i < |xs|
      invariant 0 <= i <= |xs|
      invariant persistence.Valid()
      invariant persistence.Contents() == before.(downloadFailedArtifacts := AddAll(before.downloadFailedArtifacts, xs[..i], FailedArtifactKey))
    {
      AddAllStep(before.downloadFailedArtifacts, xs, i, FailedArtifactKey);
      persistence.AddDownloadError(xs[i]);
      i := i + 1;
    }
    assert xs[..i] == xs;
  }

  method AddEachAnalyzedArtifact(persistence: YamlAnalysisPersistence, xs: seq<AnalyzedArtifact>)
    requires persistence.Valid()
    modifies persistence
    ensures persistence.Valid()
    ensures persistence.Contents() == old(persistence.Contents()).(analyzedArtifacts := AddAll(old(persistence.analyzedArtifacts), xs, AnalyzedKey))
  {
    ghost var before := persistence.Contents();
    var i := 0;
    while i < |xs|
      invariant 0 <= i <= |xs|
      invariant persistence.Valid()
      invariant persistence.Contents() == before.(analyzedArtifacts := AddAll(before.analyzedArtifacts, xs[..i], AnalyzedKey))
    {
      AddAllStep(before.analyzedArtifacts, xs, i, AnalyzedKey);
      persistence.AddAnalyzedArtifact(xs[i]);
      i := i + 1;
    }
    assert xs[..i] == xs;
  }

  method AddEachAnalysisError(persistence: YamlAnalysisPersistence, xs: seq<FailedArtifact>)
    requires persistence.Valid()
    modifies persistence
    ensures persistence.Valid()
    ensures persistence.Contents() == old(persistence.Contents()).(analysisFailedArtifacts := AddAll(old(persistence.analysisFailedArtifacts), xs, FailedArtifactKey))
  {
    ghost var before := persistence.Contents();
    var i := 0;
    while i < |xs|
      invariant 0 <= i <= |xs|
      invariant persistence.Valid()
      invariant persistence.Contents() == before.(analysisFailedArtifacts := AddAll(before.analysisFailedArtifacts, xs[..i], FailedArtifactKey))
    {
      AddAllStep(before.analysisFailedArtifacts, xs, i, FailedArtifactKey);
      persistence.AddAnalysisError(xs[i]);
      i := i + 1;
    }
    assert xs[..i] == xs;
  }

  method AddEachResolvedArtifact(persistence: YamlAnalysisPersistence, xs: seq<ResolvedArtifact>)
    requires persistence.Valid()
    modifies persistence
    ensures persistence.Valid()
    ensures persistence.Contents() == old(persistence.Contents()).(resolvedArtifacts := AddAll(old(persistence.resolvedArtifacts), xs, ResolvedArtifactKey))
  {
    ghost var before := persistence.Contents();
    var i := 0;
    while i < |xs|
      invariant 0 <= i <= |xs|
      invariant persistence.Valid()
      invariant persistence.Contents() == before.(resolvedArtifacts := AddAll(before.resolvedArtifacts, xs[..i], ResolvedArtifactKey))
    {
      AddAllStep(before.resolvedArtifacts, xs, i, ResolvedArtifactKey);
      persistence.AddResolvedArtifact(xs[i]);
      i := i + 1;
    }
    assert xs[..i] == xs;
  }

  method AddEachArtifactResolutionError(persistence: YamlAnalysisPersistence, xs: seq<FailedArtifact>)
    requires persistence.Valid()
    modifies persistence
    ensures persistence.Valid()
    ensures persistence.Contents() == old(persistence.Contents()).(resolutionFailedArtifacts := AddAll(old(persistence.resolutionFailedArtifacts), xs, FailedArtifactKey))
  {
    ghost var before := persistence.Contents();
    var i := 0;
    while i < |xs|
      invariant 0 <= i <= |xs|
      invariant persistence.Valid()
      invariant persistence.Contents() == before.(resolutionFailedArtifacts := AddAll(before.resolutionFailedArtifacts, xs[..i], FailedArtifactKey))
    {
      AddAllStep(before.resolutionFailedArtifacts, xs, i, FailedArtifactKey);
      persistence.AddArtifactResolutionError(xs[i]);
      i := i + 1;
    }
    assert xs[..i] == xs;
  }

  method AddEachResult(persistence: YamlAnalysisPersistence, xs: seq<CompletedArtifact>)
    requires persistence.Valid()
    modifies persistence
    ensures persistence.Valid()
    ensures persistence.Contents() == old(persistence.Contents()).(completedArtifacts := AddAll(old(persistence.completedArtifacts), xs, CompletedKey))
  {
    ghost var before := persistence.Contents();
    var i := 0;
    while i < |xs|
      invariant 0 <= i <= |xs|
      invariant persistence.Valid()
      invariant persistence.Contents() == before.(completedArtifacts := AddAll(before.completedArtifacts, xs[..i], CompletedKey))
    {
      AddAllStep(before.completedArtifacts, xs, i, CompletedKey);
      persistence.AddResult(xs[i]);
      i := i + 1;
    }
    assert xs[..i] == xs;
  }
}
