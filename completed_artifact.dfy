/** A `CompletedArtifact`: an artifact whose violations were analysed (or
    whose analysis failed) and whose dependees were resolved (or whose
    resolution failed), with the transitive marker derived from both. */
module CompletedArtifacts {
  import opened Wrappers
  import opened Coordinates
  import opened Markers
  import opened Violations

  /** Vavr's `Either`, with the failure on the left and the value on the
      right, for the two halves of a completed artifact. */
  datatype ViolationsEither = AnalysisFailed(left: Exception) | Analyzed(right: seq<Violation>)

  datatype DependeesEither = ResolutionFailed(left: Exception) | Resolved(right: seq<CompletedArtifact>)

  /** The immutable sets are held as sequences in their iteration order. */
  datatype CompletedArtifact = CompletedArtifact(
    artifact: ArtifactCoordinates,
    transitiveMarker: Transitive,
    violations: ViolationsEither,
    dependees: DependeesEither)

  /** `determineMarker`: UNKNOWN for a failed analysis, NONE for no
      violations, DIRECT otherwise. */
  function DetermineMarker(violations: ViolationsEither): (m: Own)
    ensures m.UNKNOWN? <==> violations.AnalysisFailed?
    ensures m.NONE? <==> violations == Analyzed([])
    ensures m.DIRECT? <==> violations.Analyzed? && violations.right != []
  {
    match violations
    case AnalysisFailed(_) => Own.UNKNOWN
    case Analyzed(vs) => if vs == [] then Own.NONE else Own.DIRECT
  }

  function DependeeMarkers(ds: seq<CompletedArtifact>): (ms: seq<Transitive>)
    ensures |ms| == |ds| && forall i :: 0 <= i < |ds| ==> ms[i] == ds[i].transitiveMarker
  {
    if ds == [] then [] else [ds[0].transitiveMarker] + DependeeMarkers(ds[1..])
  }

  /** `extractMarkers`: nothing when resolution failed, otherwise the
      dependees' transitive markers. */
  function ExtractMarkers(dependees: DependeesEither): (r: Option<seq<Transitive>>)
    ensures r.None? <==> dependees.ResolutionFailed?
    ensures r.Some? ==> r.value == DependeeMarkers(dependees.right)
  {
    match dependees
    case ResolutionFailed(_) => None
    case Resolved(ds) => Some(DependeeMarkers(ds))
  }

  /** The private constructor: the marker is computed from the two halves. */
  function Complete(
    artifact: ArtifactCoordinates,
    violations: ViolationsEither,
    dependees: DependeesEither): CompletedArtifact
  {
    CompletedArtifact(artifact,
      FromDependees(DetermineMarker(violations), ExtractMarkers(dependees)),
      violations, dependees)
  }

  /** The marker of a completed artifact is DIRECT exactly when its own
      analysis found violations; it is NONE exactly when its analysis and its
      resolution succeeded, it has no violations and every dependee is
      NONE; a failed resolution makes any other artifact UNKNOWN. */
  lemma CompleteMarker(
    artifact: ArtifactCoordinates,
    violations: ViolationsEither,
    dependees: DependeesEither)
    ensures var a := Complete(artifact, violations, dependees);
      && (a.transitiveMarker.DIRECT? <==> violations.Analyzed? && violations.right != [])
      && (a.transitiveMarker.NONE? <==>
            violations == Analyzed([]) && dependees.Resolved?
            && forall i :: 0 <= i < |dependees.right| ==> dependees.right[i].transitiveMarker.NONE?)
      && (dependees.ResolutionFailed? && !a.transitiveMarker.DIRECT? ==> a.transitiveMarker.UNKNOWN?)
  {
    FromDependeesDirectIffOwnDirect(DetermineMarker(violations), ExtractMarkers(dependees));
    if dependees.Resolved? {
      var ms := DependeeMarkers(dependees.right);
      ReduceDependeesIsMax(Transitive.NONE, ms);
      if violations == Analyzed([]) {
        OwnNoneResolved(ms);
        assert (forall k :: 0 <= k < |ms| ==> ms[k].NONE?) <==>
          (forall i :: 0 <= i < |dependees.right| ==> dependees.right[i].transitiveMarker.NONE?);
      }
    }
  }

  /** A completed artifact whose marker agrees with its halves, all the way
      down its dependees. */
  ghost predicate WellFormed(a: CompletedArtifact)
    decreases a
  {
    && a.transitiveMarker == FromDependees(DetermineMarker(a.violations), ExtractMarkers(a.dependees))
    && (a.dependees.Resolved? ==> forall d :: d in a.dependees.right ==> WellFormed(d))
  }

  /** `equals`: same coordinates and equal dependees; the violations and the
      marker are not compared. Sets are equal when each element of one has an
      equal element in the other. */
  predicate Equal(a: CompletedArtifact, b: CompletedArtifact)
    decreases a, 1
  {
    a.artifact == b.artifact && DependeesEqual(a, b)
  }

  predicate DependeesEqual(a: CompletedArtifact, b: CompletedArtifact)
    decreases a, 0
  {
    match a.dependees
    case ResolutionFailed(e) => b.dependees == ResolutionFailed(e)
    case Resolved(xs) =>
      b.dependees.Resolved?
      && (forall x :: x in xs ==> exists y :: y in b.dependees.right && Equal(x, y))
      && (forall y :: y in b.dependees.right ==> exists x :: x in xs && Equal(x, y))
  }

  lemma {:induction false} EqualReflexive(a: CompletedArtifact)
    ensures Equal(a, a)
    decreases a
  {
    if a.dependees.Resolved? {
      var xs := a.dependees.right;
      forall x | x in xs ensures Equal(x, x) {
        EqualReflexive(x);
      }
    }
  }

  /** Equality ignores the violations, and with them the marker: artifacts
      with the same coordinates and the same dependees are equal. */
  lemma EqualityIgnoresViolations(a: CompletedArtifact, b: CompletedArtifact)
    requires a.artifact == b.artifact && a.dependees == b.dependees
    ensures Equal(a, b)
  {
    EqualReflexive(a);
    assert DependeesEqual(a, a);
  }

  /** So two equal artifacts can carry different markers. */
  lemma EqualArtifactsMayDifferInMarker(c: ArtifactCoordinates, v: Violation)
    ensures var a := Complete(c, Analyzed([]), Resolved([]));
            var b := Complete(c, Analyzed([v]), Resolved([]));
            Equal(a, b) && a.transitiveMarker == Transitive.NONE && b.transitiveMarker == Transitive.DIRECT
  {
  }

  /** `CompletedArtifactBuilder`: each half is specified exactly once, either
      as a value or as the failure that prevented computing it. */
  class CompletedArtifactBuilder {
    const artifact: ArtifactCoordinates
    var violations: Option<ViolationsEither>
    var dependees: Option<DependeesEither>

    constructor (artifact: ArtifactCoordinates)
      ensures this.artifact == artifact && violations.None? && dependees.None?
    {
      this.artifact := artifact;
      violations := None;
      dependees := None;
    }

    method WithViolations(vs: seq<Violation>) returns (outcome: Result<()>)
      modifies this
      ensures outcome.Ok? <==> old(violations).None?
      ensures outcome.Err? ==> outcome.error == IllegalState
      ensures violations == if outcome.Ok? then Some(Analyzed(vs)) else old(violations)
      ensures dependees == old(dependees)
    {
      if violations.Some? { return Err(IllegalState); }
      violations := Some(Analyzed(vs));
      return Ok(());
    }

    method ViolationAnalysisFailedWith(e: Exception) returns (outcome: Result<()>)
      modifies this
      ensures outcome.Ok? <==> old(violations).None?
      ensures outcome.Err? ==> outcome.error == IllegalState
      ensures violations == if outcome.Ok? then Some(AnalysisFailed(e)) else old(violations)
      ensures dependees == old(dependees)
    {
      if violations.Some? { return Err(IllegalState); }
      violations := Some(AnalysisFailed(e));
      return Ok(());
    }

    method WithDependees(ds: seq<CompletedArtifact>) returns (outcome: Result<()>)
      modifies this
      ensures outcome.Ok? <==> old(dependees).None?
      ensures outcome.Err? ==> outcome.error == IllegalState
      ensures dependees == if outcome.Ok? then Some(Resolved(ds)) else old(dependees)
      ensures violations == old(violations)
    {
      if dependees.Some? { return Err(IllegalState); }
      dependees := Some(Resolved(ds));
      return Ok(());
    }

    method DependeeResolutionFailedWith(e: Exception) returns (outcome: Result<()>)
      modifies this
      ensures outcome.Ok? <==> old(dependees).None?
      ensures outcome.Err? ==> outcome.error == IllegalState
      ensures dependees == if outcome.Ok? then Some(ResolutionFailed(e)) else old(dependees)
      ensures violations == old(violations)
    {
      if dependees.Some? { return Err(IllegalState); }
      dependees := Some(ResolutionFailed(e));
      return Ok(());
    }

    /** `build`: IllegalStateException unless both halves were specified. */
    function Build(): (r: Result<CompletedArtifact>)
      reads this
      ensures r.Ok? <==> violations.Some? && dependees.Some?
      ensures r.Err? ==> r.error == IllegalState
      ensures r.Ok? ==> r.value.artifact == artifact
      ensures r.Ok? ==> r.value.violations == violations.value && r.value.dependees == dependees.value
      ensures r.Ok? ==> r.value.transitiveMarker == FromDependees(DetermineMarker(violations.value), ExtractMarkers(dependees.value))
    {
      if violations.None? || dependees.None? then Err(IllegalState)
      else Ok(Complete(artifact, violations.value, dependees.value))
    }
  }
}
