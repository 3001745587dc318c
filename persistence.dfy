/** The plain records the YAML store writes and reads, and their conversion
    from and to the domain values. The YAML text itself is not modelled: a
    record here is what the persister hands over or receives, with Java's
    `null` as `None`. */
module Persistence {
  import opened Wrappers
  import opened Strings
  import opened Coordinates
  import opened Markers
  import opened Violations
  import opened CompletedArtifacts
  import opened Artifacts

  /** The class of the exceptions the loaders create for a stored message. */
  const PlainException := "java.lang.Exception"

  function Reloaded(message: Option<string>): Exception
  {
    Exception(PlainException, message)
  }

  // ---------------------------------------------------------------------
  // Coordinates as "group:artifact:version" and "group:artifact"

  datatype PersistentArtifactCoordinates = PersistentArtifactCoordinates(coordinates: string)

  datatype PersistentProjectCoordinates = PersistentProjectCoordinates(coordinates: string)

  /** Coordinates that survive being written and read back: no component
      contains the separator and the last one is not empty (Java's `split`
      drops trailing empty pieces). */
  predicate ArtifactCodecSafe(c: ArtifactCoordinates)
  {
    ':' !in c.groupId && ':' !in c.artifactId && ':' !in c.version && c.version != []
  }

  predicate ProjectCodecSafe(p: ProjectCoordinates)
  {
    ':' !in p.groupId && ':' !in p.artifactId && p.artifactId != []
  }

  /** `PersistentArtifactCoordinates.from`: the stored text is the
      coordinates' `toString`. */
  function ArtifactFrom(c: ArtifactCoordinates): (p: PersistentArtifactCoordinates)
    ensures p.coordinates == ArtifactString(c)
  {
    ArtifactStringShape(c);
    PersistentArtifactCoordinates(c.groupId + ":" + c.artifactId + ":" + c.version)
  }

  /** `toArtifact`: split on ':'; anything but three pieces is an
      IllegalArgumentException. Whatever it accepts is codec-safe. */
  function ToArtifact(p: PersistentArtifactCoordinates): (r: Result<ArtifactCoordinates>)
    ensures r.Ok? <==> |JavaSplit(p.coordinates, ":")| == 3
    ensures r.Err? ==> r.error == IllegalArgument
    ensures r.Ok? ==> ArtifactCodecSafe(r.value)
  {
    JavaSplitPieces(p.coordinates, ':');
    var parts := JavaSplit(p.coordinates, ":");
    if |parts| != 3 then Err(IllegalArgument)
    else Ok(ArtifactCoordinates(parts[0], parts[1], parts[2]))
  }

  /** `PersistentProjectCoordinates.from`: the project's `toString`. */
  function ProjectFrom(q: ProjectCoordinates): (p: PersistentProjectCoordinates)
    ensures p.coordinates == ProjectString(q)
  {
    assert [q.groupId, q.artifactId][1..] == [q.artifactId];
    assert Join([q.artifactId], ":") == q.artifactId;
    PersistentProjectCoordinates(q.groupId + ":" + q.artifactId)
  }

  /** `toProject`: split on ':'; anything but two pieces is an
      IllegalArgumentException. */
  function ToProject(p: PersistentProjectCoordinates): (r: Result<ProjectCoordinates>)
    ensures r.Ok? <==> |JavaSplit(p.coordinates, ":")| == 2
    ensures r.Err? ==> r.error == IllegalArgument
    ensures r.Ok? ==> ProjectCodecSafe(r.value)
  {
    JavaSplitPieces(p.coordinates, ':');
    var parts := JavaSplit(p.coordinates, ":");
    if |parts| != 2 then Err(IllegalArgument)
    else Ok(ProjectCoordinates(parts[0], parts[1]))
  }

  /** Writing then reading gives the coordinates back when they are
      codec-safe; decoding and encoding again is therefore stable. */
  lemma ArtifactRoundTrip(c: ArtifactCoordinates)
    requires ArtifactCodecSafe(c)
    ensures ToArtifact(ArtifactFrom(c)) == Ok(c)
  {
    var parts := [c.groupId, c.artifactId, c.version];
    JavaSplitJoin(parts, ':');
    ArtifactStringShape(c);
  }

  /** An empty version is lost: the text ends in ':' and reads back as two
      pieces, which is rejected. */
  lemma ArtifactEmptyVersionRejected(c: ArtifactCoordinates)
    requires ':' !in c.groupId && ':' !in c.artifactId && c.version == []
    ensures ToArtifact(ArtifactFrom(c)) == Err(IllegalArgument)
  {
    var parts := [c.groupId, c.artifactId, c.version];
    JavaSplitJoinDropsEmptyLast(parts, ':');
    ArtifactStringShape(c);
  }

  lemma ProjectRoundTrip(q: ProjectCoordinates)
    requires ProjectCodecSafe(q)
    ensures ToProject(ProjectFrom(q)) == Ok(q)
  {
    var parts := [q.groupId, q.artifactId];
    JavaSplitJoin(parts, ':');
  }

  /** Three-part artifact texts are not projects, two-part project texts are
      not artifacts. */
  lemma CodecsRejectEachOther(c: ArtifactCoordinates, q: ProjectCoordinates)
    requires ArtifactCodecSafe(c) && ProjectCodecSafe(q)
    ensures ToProject(PersistentProjectCoordinates(ArtifactFrom(c).coordinates)) == Err(IllegalArgument)
    ensures ToArtifact(PersistentArtifactCoordinates(ProjectFrom(q).coordinates)) == Err(IllegalArgument)
  {
    JavaSplitJoin([c.groupId, c.artifactId, c.version], ':');
    ArtifactStringShape(c);
    JavaSplitJoin([q.groupId, q.artifactId], ':');
    assert [q.groupId, q.artifactId][1..] == [q.artifactId];
  }

  // ---------------------------------------------------------------------
  // Failed artifacts and projects: coordinates and the error message

  datatype PersistentFailedArtifact = PersistentFailedArtifact(artifact: PersistentArtifactCoordinates, errorMessage: Option<string>)

  datatype PersistentFailedProject = PersistentFailedProject(project: PersistentProjectCoordinates, errorMessage: Option<string>)

  function FailedArtifactFrom(f: FailedArtifact): PersistentFailedArtifact
  {
    PersistentFailedArtifact(ArtifactFrom(f.artifact), f.error.message)
  }

  /** The message comes back wrapped in a new plain exception. */
  function ToFailedArtifact(p: PersistentFailedArtifact): Result<FailedArtifact>
  {
    var artifact :- ToArtifact(p.artifact);
    Ok(FailedArtifact(artifact, Reloaded(p.errorMessage)))
  }

  function FailedProjectFrom(f: FailedProject): PersistentFailedProject
  {
    PersistentFailedProject(ProjectFrom(f.project), f.error.message)
  }

  function ToFailedProject(p: PersistentFailedProject): Result<FailedProject>
  {
    var project :- ToProject(p.project);
    Ok(FailedProject(project, Reloaded(p.errorMessage)))
  }

  /** The reloaded failure equals the saved one under `FailedArtifact.equals`
      (coordinates and message), though its exception is a new one. */
  lemma FailedArtifactRoundTrip(f: FailedArtifact)
    requires ArtifactCodecSafe(f.artifact)
    ensures ToFailedArtifact(FailedArtifactFrom(f)).Ok?
    ensures FailedArtifactEquals(ToFailedArtifact(FailedArtifactFrom(f)).value, f)
    ensures ToFailedArtifact(FailedArtifactFrom(f)).value.error.className == PlainException
  {
    ArtifactRoundTrip(f.artifact);
  }

  lemma FailedProjectRoundTrip(f: FailedProject)
    requires ProjectCodecSafe(f.project)
    ensures ToFailedProject(FailedProjectFrom(f)).Ok?
    ensures FailedProjectEquals(ToFailedProject(FailedProjectFrom(f)).value, f)
    ensures ToFailedProject(FailedProjectFrom(f)).value.error.className == PlainException
  {
    ProjectRoundTrip(f.project);
  }

  /** A malformed coordinates text fails the whole record. */
  lemma ToFailedRejectsMalformed(p: PersistentFailedArtifact, q: PersistentFailedProject)
    ensures ToArtifact(p.artifact).Err? ==> ToFailedArtifact(p) == Err(IllegalArgument)
    ensures ToProject(q.project).Err? ==> ToFailedProject(q) == Err(IllegalArgument)
  {
  }

  // ---------------------------------------------------------------------
  // Resolved artifacts: coordinates and the dependees' coordinates

  /** A list absent from the loaded record (the persister skips empty lists)
      is `None`. */
  datatype PersistentResolvedArtifact = PersistentResolvedArtifact(
    artifact: PersistentArtifactCoordinates,
    dependees: Option<seq<PersistentArtifactCoordinates>>)

  function ResolvedArtifactFrom(a: ResolvedArtifact): PersistentResolvedArtifact
  {
    PersistentResolvedArtifact(ArtifactFrom(a.artifact),
      Some(seq(|a.dependees|, i requires 0 <= i < |a.dependees| => ArtifactFrom(a.dependees[i]))))
  }

  /** An absent list is read as an empty one. */
  function ListOrEmpty<T>(list: Option<seq<T>>): seq<T>
  {
    if list.Some? then list.value else []
  }

  function ToResolvedArtifact(p: PersistentResolvedArtifact): Result<ResolvedArtifact>
  {
    var artifact :- ToArtifact(p.artifact);
    var items := ListOrEmpty(p.dependees);
    var dependees :- CollectResults(seq(|items|, i requires 0 <= i < |items| => ToArtifact(items[i])));
    Ok(ResolvedArtifact(artifact, dependees))
  }

  /** The round trip keeps the artifact and every dependee, in order. */
  lemma ResolvedArtifactRoundTrip(a: ResolvedArtifact)
    requires ArtifactCodecSafe(a.artifact)
    requires forall i :: 0 <= i < |a.dependees| ==> ArtifactCodecSafe(a.dependees[i])
    ensures ToResolvedArtifact(ResolvedArtifactFrom(a)) == Ok(a)
  {
    ArtifactRoundTrip(a.artifact);
    var items := ListOrEmpty(ResolvedArtifactFrom(a).dependees);
    var rs := seq(|items|, i requires 0 <= i < |items| => ToArtifact(items[i]));
    forall i | 0 <= i < |a.dependees| ensures rs[i] == Ok(a.dependees[i]) {
      ArtifactRoundTrip(a.dependees[i]);
    }
    assert CollectResults(rs).value == a.dependees;
  }

  /** One malformed dependee text fails the whole record. */
  lemma ResolvedArtifactRejectsMalformed(p: PersistentResolvedArtifact, i: nat)
    requires i < |ListOrEmpty(p.dependees)| && ToArtifact(ListOrEmpty(p.dependees)[i]).Err?
    ensures ToResolvedArtifact(p) == Err(IllegalArgument)
  {
    var items := ListOrEmpty(p.dependees);
    var rs := seq(|items|, j requires 0 <= j < |items| => ToArtifact(items[j]));
    assert rs[i].Err?;
  }

  // ---------------------------------------------------------------------
  // Completed artifacts: each half is stored as a message or as a list

  datatype PersistentDependees =
    | NoDependeeList
    | DependeeList(items: seq<PersistentCompletedArtifact>)

  datatype PersistentCompletedArtifact = PersistentCompletedArtifact(
    artifact: PersistentArtifactCoordinates,
    analysisResult: Transitive,
    analysisErrorMessage: Option<string>,
    violations: Option<seq<Violation>>,
    resolutionErrorMessage: Option<string>,
    dependees: PersistentDependees)

  /** The message `from` stores for a failure: `getMessage()`, which is null
      for an exception created without a message. */
  function MessageAsWritten(e: Exception): Option<string>
  {
    e.message
  }

  /** The message a corrected `from` stores: never null, falling back to the
      exception's class name as `Throwable.toString` does. */
  function MessageCorrected(e: Exception): (m: Option<string>)
    ensures m.Some? && (e.message.Some? ==> m == e.message)
  {
    Some(if e.message.Some? then e.message.value else e.className)
  }

  /** `PersistentCompletedArtifact.from`, storing failures with `message`:
      one of the two fields of each half is set, the marker is recorded, and
      the dependees are converted recursively. */
  function Encode(a: CompletedArtifact, message: Exception -> Option<string>): (p: PersistentCompletedArtifact)
    ensures p.violations.Some? <==> a.violations.Analyzed?
    ensures p.analysisErrorMessage.Some? ==> p.violations.None?
    ensures p.dependees.DependeeList? <==> a.dependees.Resolved?
    ensures p.resolutionErrorMessage.Some? ==> p.dependees.NoDependeeList?
    ensures p.analysisResult == a.transitiveMarker
    decreases a
  {
    PersistentCompletedArtifact(
      ArtifactFrom(a.artifact),
      a.transitiveMarker,
      if a.violations.AnalysisFailed? then message(a.violations.left) else None,
      if a.violations.AnalysisFailed? then None else Some(a.violations.right),
      if a.dependees.ResolutionFailed? then message(a.dependees.left) else None,
      match a.dependees
      case ResolutionFailed(_) => NoDependeeList
      case Resolved(ds) => DependeeList(seq(|ds|, i requires 0 <= i < |ds| => Encode(ds[i], message))))
  }

  /** `from` as written. */
  function FromCompletedAsWritten(a: CompletedArtifact): PersistentCompletedArtifact
  {
    Encode(a, MessageAsWritten)
  }

  /** `from` corrected: exactly one field of each half is set. */
  function FromCompleted(a: CompletedArtifact): (p: PersistentCompletedArtifact)
    ensures p.analysisErrorMessage.Some? <==> p.violations.None?
    ensures p.resolutionErrorMessage.Some? <==> p.dependees.NoDependeeList?
  {
    Encode(a, MessageCorrected)
  }

  /** `toArtifact`: a half whose message is null is read as a success, with
      an absent list read as an empty one; otherwise the message comes back
      in a new plain exception. The stored marker is not read: the builder
      computes it again. */
  function ToCompleted(p: PersistentCompletedArtifact): (r: Result<CompletedArtifact>)
    ensures r.Ok? ==> (r.value.violations.AnalysisFailed? <==> p.analysisErrorMessage.Some?)
    ensures r.Ok? ==> (r.value.dependees.ResolutionFailed? <==> p.resolutionErrorMessage.Some?)
    ensures ToArtifact(p.artifact).Err? ==> r == Err(IllegalArgument)
    decreases p, 1
  {
    var artifact :- ToArtifact(p.artifact);
    var dependees :- ToDependees(p);
    Ok(Complete(artifact, ToViolations(p), dependees))
  }

  /** The violations half of `toArtifact`. */
  function ToViolations(p: PersistentCompletedArtifact): ViolationsEither
  {
    if p.analysisErrorMessage.None? then Analyzed(ListOrEmpty(p.violations))
    else AnalysisFailed(Reloaded(p.analysisErrorMessage))
  }

  /** The dependees half of `toArtifact`, loading the dependees in turn. */
  function ToDependees(p: PersistentCompletedArtifact): (r: Result<DependeesEither>)
    ensures r.Ok? ==> (r.value.ResolutionFailed? <==> p.resolutionErrorMessage.Some?)
    decreases p, 0
  {
    if p.resolutionErrorMessage.Some? then Ok(ResolutionFailed(Reloaded(p.resolutionErrorMessage)))
    else
      match p.dependees
      case NoDependeeList => Ok(Resolved([]))
      case DependeeList(items) =>
        var ds :- CollectResults(seq(|items|, i requires 0 <= i < |items| => ToCompleted(items[i])));
        Ok(Resolved(ds))
  }

  /** The marker recorded at save time plays no part in loading. */
  lemma StoredMarkerIgnored(p: PersistentCompletedArtifact, m: Transitive)
    ensures ToCompleted(p.(analysisResult := m)) == ToCompleted(p)
  {
  }

  /** Coordinates that survive the codec, all the way down the dependees. */
  ghost predicate CodecSafe(a: CompletedArtifact)
    decreases a
  {
    && ArtifactCodecSafe(a.artifact)
    && (a.dependees.Resolved? ==> forall d :: d in a.dependees.right ==> CodecSafe(d))
  }

  /** Every failure has a message, all the way down the dependees. */
  ghost predicate HasMessages(a: CompletedArtifact)
    decreases a
  {
    && (a.violations.AnalysisFailed? ==> a.violations.left.message.Some?)
    && (a.dependees.ResolutionFailed? ==> a.dependees.left.message.Some?)
    && (a.dependees.Resolved? ==> forall d :: d in a.dependees.right ==> HasMessages(d))
  }

  /** What loading gives back for `a` saved by the corrected `from`: the same
      coordinates, marker, violations and dependees, every failure carried by
      a new plain exception with the stored message. */
  function Restored(a: CompletedArtifact): CompletedArtifact
    decreases a
  {
    CompletedArtifact(a.artifact, a.transitiveMarker,
      match a.violations
      case AnalysisFailed(e) => AnalysisFailed(Reloaded(MessageCorrected(e)))
      case Analyzed(vs) => Analyzed(vs),
      match a.dependees
      case ResolutionFailed(e) => ResolutionFailed(Reloaded(MessageCorrected(e)))
      case Resolved(ds) => Resolved(seq(|ds|, i requires 0 <= i < |ds| => Restored(ds[i]))))
  }

  /** Restoring keeps everything the store is meant to keep: coordinates,
      marker, the success or failure of each half, the violations, every
      message that was present and the dependees one by one. */
  lemma {:induction false} RestoredKeeps(a: CompletedArtifact)
    ensures Restored(a).artifact == a.artifact && Restored(a).transitiveMarker == a.transitiveMarker
    ensures Restored(a).violations.Analyzed? <==> a.violations.Analyzed?
    ensures a.violations.Analyzed? ==> Restored(a).violations == a.violations
    ensures a.violations.AnalysisFailed? && a.violations.left.message.Some? ==>
      Restored(a).violations.left.message == a.violations.left.message
    ensures Restored(a).dependees.Resolved? <==> a.dependees.Resolved?
    ensures a.dependees.ResolutionFailed? && a.dependees.left.message.Some? ==>
      Restored(a).dependees.left.message == a.dependees.left.message
    ensures a.dependees.Resolved? ==>
      && |Restored(a).dependees.right| == |a.dependees.right|
      && (forall i :: 0 <= i < |a.dependees.right| ==>
            Restored(a).dependees.right[i] == Restored(a.dependees.right[i]))
    ensures WellFormed(a) ==> WellFormed(Restored(a))
    decreases a
  {
    if a.dependees.Resolved? {
      var ds := a.dependees.right;
      var rs := Restored(a).dependees.right;
      forall i | 0 <= i < |ds| ensures rs[i].transitiveMarker == ds[i].transitiveMarker {
        RestoredKeeps(ds[i]);
      }
      assert DependeeMarkers(rs) == DependeeMarkers(ds);
      if WellFormed(a) {
        forall d | d in rs ensures WellFormed(d) {
          var i :| 0 <= i < |rs| && rs[i] == d;
          RestoredKeeps(ds[i]);
        }
      }
    }
  }

  /** Saving with the corrected `from` and loading gives `Restored(a)` for
      every well-formed, codec-safe artifact: coordinates, marker, dependees
      and messages survive. */
  lemma {:induction false} CompletedRoundTrip(a: CompletedArtifact)
    requires WellFormed(a) && CodecSafe(a)
    ensures ToCompleted(FromCompleted(a)) == Ok(Restored(a))
    decreases a, 1
  {
    var p := FromCompleted(a);
    ArtifactRoundTrip(a.artifact);
    RestoredKeeps(a);
    assert ToViolations(p) == Restored(a).violations;
    DependeesRoundTrip(a);
  }

  lemma {:induction false} DependeesRoundTrip(a: CompletedArtifact)
    requires WellFormed(a) && CodecSafe(a)
    ensures ToDependees(FromCompleted(a)) == Ok(Restored(a).dependees)
    decreases a, 0
  {
    var p := FromCompleted(a);
    match a.dependees {
      case ResolutionFailed(e) =>
      case Resolved(ds) =>
        var items := p.dependees.items;
        assert |items| == |ds|;
        var rs := seq(|items|, i requires 0 <= i < |items| => ToCompleted(items[i]));
        var loaded := seq(|ds|, i requires 0 <= i < |ds| => Restored(ds[i]));
        forall i | 0 <= i < |ds| ensures rs[i] == Ok(loaded[i]) {
          assert ds[i] in ds;
          assert items[i] == FromCompleted(ds[i]);
          CompletedRoundTrip(ds[i]);
        }
        var collected := CollectResults(rs);
        assert collected.Ok?;
        assert forall i :: 0 <= i < |loaded| ==> collected.value[i] == loaded[i];
        assert collected.value == loaded;
    }
  }

  /** Where every failure has a message, `from` as written stores exactly
      what the corrected one does, so it round-trips too. */
  lemma {:induction false} AsWrittenAgreesWithMessages(a: CompletedArtifact)
    requires HasMessages(a)
    ensures FromCompletedAsWritten(a) == FromCompleted(a)
    decreases a
  {
    if a.dependees.Resolved? {
      var ds := a.dependees.right;
      forall i | 0 <= i < |ds| ensures Encode(ds[i], MessageAsWritten) == Encode(ds[i], MessageCorrected) {
        assert ds[i] in ds;
        AsWrittenAgreesWithMessages(ds[i]);
      }
    }
  }

  /** As written, an analysis that failed with an exception without a
      message is saved with neither a message nor a list, and loads as a
      successful analysis with no violations: UNKNOWN becomes NONE. */
  lemma AsWrittenLosesMessagelessFailure(c: ArtifactCoordinates, e: Exception)
    requires ArtifactCodecSafe(c) && e.message.None?
    ensures var a := Complete(c, AnalysisFailed(e), Resolved([]));
      && a.transitiveMarker == Transitive.UNKNOWN
      && ToCompleted(FromCompletedAsWritten(a)) == Ok(Complete(c, Analyzed([]), Resolved([])))
      && Complete(c, Analyzed([]), Resolved([])).transitiveMarker == Transitive.NONE
  {
    ArtifactRoundTrip(c);
    var a := Complete(c, AnalysisFailed(e), Resolved([]));
    FromDependeesNoDependees(Own.UNKNOWN);
    FromDependeesNoDependees(Own.NONE);
    assert DependeeMarkers([]) == [];
    var p := FromCompletedAsWritten(a);
    assert p.dependees == DependeeList([]);
    assert CollectResults<CompletedArtifact>([]) == Ok([]);
  }

  /** The corrected `from` keeps that failure. */
  lemma CorrectedKeepsMessagelessFailure(c: ArtifactCoordinates, e: Exception)
    requires ArtifactCodecSafe(c) && e.message.None?
    ensures var a := Complete(c, AnalysisFailed(e), Resolved([]));
      ToCompleted(FromCompleted(a)) == Ok(Complete(c, AnalysisFailed(Reloaded(Some(e.className))), Resolved([])))
      && ToCompleted(FromCompleted(a)).value.transitiveMarker == Transitive.UNKNOWN
  {
    var a := Complete(c, AnalysisFailed(e), Resolved([]));
    FromDependeesNoDependees(Own.UNKNOWN);
    assert DependeeMarkers([]) == [];
    assert WellFormed(a);
    assert CodecSafe(a);
    CompletedRoundTrip(a);
    assert Restored(a).dependees == Resolved([]);
  }
}
