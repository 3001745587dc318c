/** Maven coordinates of artifacts and projects, their alphabetical order,
    and the values that pair coordinates with a failure. */
module Coordinates {
  import opened Wrappers
  import opened Strings

  /** `groupId:artifactId:version`; the model's strings are never null. */
  datatype ArtifactCoordinates = ArtifactCoordinates(groupId: string, artifactId: string, version: string)

  /** `groupId:artifactId` of a project, which has many versions. */
  datatype ProjectCoordinates = ProjectCoordinates(groupId: string, artifactId: string)

  /** A Java exception as far as the system looks at it: its class and its
      (possibly null) message. */
  datatype Exception = Exception(className: string, message: Option<string>)

  datatype FailedArtifact = FailedArtifact(artifact: ArtifactCoordinates, error: Exception)

  datatype FailedProject = FailedProject(project: ProjectCoordinates, error: Exception)

  /** `toString`: "group:artifact:version". */
  function ArtifactString(c: ArtifactCoordinates): string
  {
    Join([c.groupId, c.artifactId, c.version], ":")
  }

  /** `toString`: "group:artifact". */
  function ProjectString(p: ProjectCoordinates): string
  {
    Join([p.groupId, p.artifactId], ":")
  }

  lemma ArtifactStringShape(c: ArtifactCoordinates)
    ensures ArtifactString(c) == c.groupId + ":" + c.artifactId + ":" + c.version
  {
    assert [c.groupId, c.artifactId, c.version][1..] == [c.artifactId, c.version];
    assert [c.artifactId, c.version][1..] == [c.version];
    assert Join([c.artifactId, c.version], ":") == c.artifactId + ":" + c.version;
  }

  /** The key fields the alphabetical comparators look at, in order. */
  function ArtifactKey(c: ArtifactCoordinates): seq<string>
  {
    [c.groupId, c.artifactId, c.version]
  }

  function ProjectKey(p: ProjectCoordinates): seq<string>
  {
    [p.groupId, p.artifactId]
  }

  /** `IdentifiesArtifact.alphabeticalOrder()`: by groupId, then artifactId,
      then version. */
  function CompareArtifacts(a: ArtifactCoordinates, b: ArtifactCoordinates): int
  {
    CompareFields(ArtifactKey(a), ArtifactKey(b))
  }

  /** `IdentifiesProject.alphabeticalOrder()`: by groupId, then artifactId. */
  function CompareProjects(p: ProjectCoordinates, q: ProjectCoordinates): int
  {
    CompareFields(ProjectKey(p), ProjectKey(q))
  }

  /** The artifact comparator decides on the first field that differs. */
  lemma ArtifactOrderByFields(a: ArtifactCoordinates, b: ArtifactCoordinates)
    ensures a.groupId != b.groupId ==> CompareArtifacts(a, b) == CompareStrings(a.groupId, b.groupId)
    ensures a.groupId == b.groupId && a.artifactId != b.artifactId ==>
      CompareArtifacts(a, b) == CompareStrings(a.artifactId, b.artifactId)
    ensures a.groupId == b.groupId && a.artifactId == b.artifactId ==>
      CompareArtifacts(a, b) == CompareStrings(a.version, b.version)
  {
    CompareStringsZero(a.groupId, b.groupId);
    CompareStringsZero(a.artifactId, b.artifactId);
    CompareStringsZero(a.version, b.version);
    assert ArtifactKey(a)[1..] == [a.artifactId, a.version] && ArtifactKey(b)[1..] == [b.artifactId, b.version];
    assert ArtifactKey(a)[1..][1..] == [a.version] && ArtifactKey(b)[1..][1..] == [b.version];
    if a.groupId == b.groupId {
      assert CompareArtifacts(a, b) == CompareFields([a.artifactId, a.version], [b.artifactId, b.version]);
      if a.artifactId == b.artifactId {
        assert CompareFields([a.artifactId, a.version], [b.artifactId, b.version]) == CompareFields([a.version], [b.version]);
        assert [a.version][1..] == [] == [b.version][1..];
        assert CompareFields([], []) == 0;
      }
    }
  }

  /** The project comparator decides on the first field that differs. */
  lemma ProjectOrderByFields(p: ProjectCoordinates, q: ProjectCoordinates)
    ensures p.groupId != q.groupId ==> CompareProjects(p, q) == CompareStrings(p.groupId, q.groupId)
    ensures p.groupId == q.groupId ==> CompareProjects(p, q) == CompareStrings(p.artifactId, q.artifactId)
  {
    CompareStringsZero(p.groupId, q.groupId);
    CompareStringsZero(p.artifactId, q.artifactId);
    assert ProjectKey(p)[1..] == [p.artifactId] && ProjectKey(q)[1..] == [q.artifactId];
    if p.groupId == q.groupId {
      assert CompareProjects(p, q) == CompareFields([p.artifactId], [q.artifactId]);
      assert [p.artifactId][1..] == [] == [q.artifactId][1..];
      assert CompareFields([], []) == 0;
    }
  }

  /** The comparator answers 0 exactly for equal coordinates, so a sorted set
      keeps one element per coordinates. */
  lemma ArtifactOrderZeroIffEqual(a: ArtifactCoordinates, b: ArtifactCoordinates)
    ensures CompareArtifacts(a, b) == 0 <==> a == b
  {
    CompareFieldsZero(ArtifactKey(a), ArtifactKey(b));
  }

  lemma ProjectOrderZeroIffEqual(p: ProjectCoordinates, q: ProjectCoordinates)
    ensures CompareProjects(p, q) == 0 <==> p == q
  {
    CompareFieldsZero(ProjectKey(p), ProjectKey(q));
  }

  /** The artifact comparator is a total order: antisymmetric and transitive. */
  lemma ArtifactOrderTotal(a: ArtifactCoordinates, b: ArtifactCoordinates, c: ArtifactCoordinates)
    ensures CompareArtifacts(b, a) == -CompareArtifacts(a, b)
    ensures CompareArtifacts(a, b) < 0 && CompareArtifacts(b, c) < 0 ==> CompareArtifacts(a, c) < 0
  {
    CompareFieldsAntisymmetric(ArtifactKey(a), ArtifactKey(b));
    if CompareArtifacts(a, b) < 0 && CompareArtifacts(b, c) < 0 {
      CompareFieldsTransitive(ArtifactKey(a), ArtifactKey(b), ArtifactKey(c));
    }
  }

  lemma ProjectOrderTotal(p: ProjectCoordinates, q: ProjectCoordinates, r: ProjectCoordinates)
    ensures CompareProjects(q, p) == -CompareProjects(p, q)
    ensures CompareProjects(p, q) < 0 && CompareProjects(q, r) < 0 ==> CompareProjects(p, r) < 0
  {
    CompareFieldsAntisymmetric(ProjectKey(p), ProjectKey(q));
    if CompareProjects(p, q) < 0 && CompareProjects(q, r) < 0 {
      CompareFieldsTransitive(ProjectKey(p), ProjectKey(q), ProjectKey(r));
    }
  }

  /** `toArtifactsWithVersions`: one artifact per version, in the given order. */
  function ToArtifactsWithVersions(p: ProjectCoordinates, versions: seq<string>): (r: seq<ArtifactCoordinates>)
    ensures |r| == |versions|
    ensures forall i :: 0 <= i < |r| ==>
      r[i].groupId == p.groupId && r[i].artifactId == p.artifactId && r[i].version == versions[i]
  {
    if versions == [] then []
    else [ArtifactCoordinates(p.groupId, p.artifactId, versions[0])] + ToArtifactsWithVersions(p, versions[1..])
  }

  /** `FailedArtifact.equals`: same coordinates and same error message; the
      exception objects themselves may differ. */
  predicate FailedArtifactEquals(f: FailedArtifact, g: FailedArtifact)
  {
    f.artifact == g.artifact && f.error.message == g.error.message
  }

  /** `FailedProject.equals`: same project and same error message. */
  predicate FailedProjectEquals(f: FailedProject, g: FailedProject)
  {
    f.project == g.project && f.error.message == g.error.message
  }

  /** Failed-artifact equality is an equivalence that ignores the exception's
      class, and it holds only for equal coordinates. */
  lemma FailedArtifactEquality(f: FailedArtifact, g: FailedArtifact, h: FailedArtifact)
    ensures FailedArtifactEquals(f, f)
    ensures FailedArtifactEquals(f, g) ==> FailedArtifactEquals(g, f)
    ensures FailedArtifactEquals(f, g) && FailedArtifactEquals(g, h) ==> FailedArtifactEquals(f, h)
    ensures FailedArtifactEquals(f, g) <==> f.artifact == g.artifact && f.error.message == g.error.message
    ensures FailedArtifactEquals(f, FailedArtifact(f.artifact, Exception("java.lang.Exception", f.error.message)))
  {
  }

  lemma FailedProjectEquality(f: FailedProject, g: FailedProject, h: FailedProject)
    ensures FailedProjectEquals(f, f)
    ensures FailedProjectEquals(f, g) ==> FailedProjectEquals(g, f)
    ensures FailedProjectEquals(f, g) && FailedProjectEquals(g, h) ==> FailedProjectEquals(f, h)
    ensures FailedProjectEquals(f, g) <==> f.project == g.project && f.error.message == g.error.message
    ensures FailedProjectEquals(f, FailedProject(f.project, Exception("java.lang.Exception", f.error.message)))
  {
  }
}
