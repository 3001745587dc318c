/** The values that carry an artifact or a project from one analysis step to
    the next. Immutable sets are held as sequences in iteration order. */
module Artifacts {
  import opened Coordinates
  import opened Markers
  import opened Violations

  /** A project together with the coordinates of its versions. */
  datatype ResolvedProject = ResolvedProject(project: ProjectCoordinates, versions: seq<ArtifactCoordinates>)

  /** An artifact whose JAR was downloaded; the path is kept as its text. */
  datatype DownloadedArtifact = DownloadedArtifact(artifact: ArtifactCoordinates, path: string)

  /** An artifact that JDeps analysed. */
  datatype AnalyzedArtifact = AnalyzedArtifact(artifact: ArtifactCoordinates, violations: seq<Violation>)

  /** An artifact whose direct dependencies were resolved. */
  datatype ResolvedArtifact = ResolvedArtifact(artifact: ArtifactCoordinates, dependees: seq<ArtifactCoordinates>)

  /** An artifact whose own analysis and whose whole dependee tree were
      analysed, with the internal-dependency marker derived from both. */
  datatype DeeplyAnalyzedArtifact = DeeplyAnalyzedArtifact(
    artifact: ArtifactCoordinates,
    marker: Internal,
    violations: seq<Violation>,
    dependees: seq<DeeplyAnalyzedArtifact>)

  /** The coordinates of some deeply analyzed artifacts, in order. */
  function CoordinatesOf(ds: seq<DeeplyAnalyzedArtifact>): (cs: seq<ArtifactCoordinates>)
    ensures |cs| == |ds| && forall k :: 0 <= k < |ds| ==> cs[k] == ds[k].artifact
  {
    seq(|ds|, k requires 0 <= k < |ds| => ds[k].artifact)
  }
}
