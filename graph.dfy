/** The analysis graph: one node per artifact coordinates, each holding the
    tasks of that artifact, a multimap from projects to their artifact nodes,
    and the graph updates that happen when versions or dependees are
    resolved. Nodes compare by coordinates, so the graph keeps them in a map
    keyed by coordinates and refers to a node by its coordinates. */
module Graphs {
  import opened Wrappers
  import opened Coordinates
  import opened Markers
  import opened Violations
  import opened Artifacts
  import opened Tasks

  /** The project an artifact belongs to: its groupId and artifactId. */
  function ProjectOf(c: ArtifactCoordinates): (p: ProjectCoordinates)
    ensures p.groupId == c.groupId && p.artifactId == c.artifactId
  {
    ProjectCoordinates(c.groupId, c.artifactId)
  }

  /** `AnalysisNode`: the tasks of one artifact and the artifacts that
      depend on it. */
  datatype GraphEntry = GraphEntry(
    jarFile: State<string>,
    violations: State<seq<Violation>>,
    dependees: State<set<ArtifactCoordinates>>,
    marker: State<Internal>,
    dependents: set<ArtifactCoordinates>)

  const FreshEntry: GraphEntry := GraphEntry(NotComputed, NotComputed, NotComputed, NotComputed, {})

  /** The entry `addAnalyzedArtifact` builds for an artifact whose dependee
      nodes exist: analysis and resolution succeeded, nothing else known. */
  function AnalyzedEntry(a: DeeplyAnalyzedArtifact): GraphEntry
  {
    GraphEntry(NotComputed, Succeeded(a.violations), Succeeded(DependeeCoordinates(a.dependees)), NotComputed, {})
  }

  function DependeeCoordinates(ds: seq<DeeplyAnalyzedArtifact>): (r: set<ArtifactCoordinates>)
    ensures forall c :: c in r <==> exists i :: 0 <= i < |ds| && ds[i].artifact == c
  {
    set i | 0 <= i < |ds| :: ds[i].artifact
  }

  /** Every coordinates in a deeply analysed artifact's tree. */
  ghost function TreeCoordinates(a: DeeplyAnalyzedArtifact): set<ArtifactCoordinates>
    decreases a
  {
    {a.artifact} + (set i, c | 0 <= i < |a.dependees| && c in TreeCoordinates(a.dependees[i]) :: c)
  }

  /** Every coordinates in the trees of the first `n` artifacts. */
  ghost function Trees(artifacts: seq<DeeplyAnalyzedArtifact>, n: nat): set<ArtifactCoordinates>
    requires n <= |artifacts|
  {
    set i, c | 0 <= i < n && c in TreeCoordinates(artifacts[i]) :: c
  }

  /** `Trees` for every prefix. */
  ghost function TreesUpTo(artifacts: seq<DeeplyAnalyzedArtifact>): (r: seq<set<ArtifactCoordinates>>)
    ensures |r| == |artifacts| + 1
    ensures forall k :: 0 <= k <= |artifacts| ==> r[k] == Trees(artifacts, k)
  {
    seq(|artifacts| + 1, k requires 0 <= k <= |artifacts| => Trees(artifacts, k))
  }

  lemma TreesStep(artifacts: seq<DeeplyAnalyzedArtifact>, n: nat)
    requires n < |artifacts|
    ensures Trees(artifacts, n + 1) == Trees(artifacts, n) + TreeCoordinates(artifacts[n])
  {
  }

  lemma TreesUpToSteps(artifacts: seq<DeeplyAnalyzedArtifact>)
    ensures forall n :: 0 <= n < |artifacts| ==>
              TreesUpTo(artifacts)[n + 1] == TreesUpTo(artifacts)[n] + TreeCoordinates(artifacts[n])
  {
    forall n | 0 <= n < |artifacts|
      ensures TreesUpTo(artifacts)[n + 1] == TreesUpTo(artifacts)[n] + TreeCoordinates(artifacts[n])
    {
      TreesStep(artifacts, n);
    }
  }

  /** What seeding the graph with the first `n` artifacts has achieved,
      where `trees[j]` holds the coordinates of the first `j` trees. */
  ghost predicate Seeded(
    artifacts: seq<DeeplyAnalyzedArtifact>, n: nat, nodes: map<ArtifactCoordinates, GraphEntry>,
    trees: seq<set<ArtifactCoordinates>>)
    requires n <= |artifacts| < |trees|
  {
    && (forall j :: 0 <= j < n ==> artifacts[j].artifact in nodes)
    && (forall j :: 0 <= j < n && artifacts[j].artifact !in trees[j] ==>
          artifacts[j].artifact in nodes && nodes[artifacts[j].artifact] == AnalyzedEntry(artifacts[j]))
    && nodes.Keys <= trees[n]
  }

  /** Seeding with all artifacts, read in terms of their trees. */
  lemma SeededAll(
    artifacts: seq<DeeplyAnalyzedArtifact>, nodes: map<ArtifactCoordinates, GraphEntry>,
    trees: seq<set<ArtifactCoordinates>>)
    requires |trees| == |artifacts| + 1 && Seeded(artifacts, |artifacts|, nodes, trees)
    requires forall k :: 0 <= k <= |artifacts| ==> trees[k] == Trees(artifacts, k)
    ensures forall i :: 0 <= i < |artifacts| ==> artifacts[i].artifact in nodes
    ensures forall i :: 0 <= i < |artifacts| && artifacts[i].artifact !in Trees(artifacts, i) ==>
              nodes[artifacts[i].artifact] == AnalyzedEntry(artifacts[i])
    ensures nodes.Keys <= Trees(artifacts, |artifacts|)
  {
    forall i | 0 <= i < |artifacts| && artifacts[i].artifact !in Trees(artifacts, i)
      ensures nodes[artifacts[i].artifact] == AnalyzedEntry(artifacts[i])
    {
      assert trees[i] == Trees(artifacts, i);
    }
    assert trees[|artifacts|] == Trees(artifacts, |artifacts|);
  }

  /** Adding one more artifact, whose tree is `tree`, as
      `addAnalyzedArtifact` does seeds one more. */
  lemma SeededStep(
    artifacts: seq<DeeplyAnalyzedArtifact>, n: nat,
    before: map<ArtifactCoordinates, GraphEntry>, after: map<ArtifactCoordinates, GraphEntry>,
    trees: seq<set<ArtifactCoordinates>>, tree: set<ArtifactCoordinates>)
    requires n < |artifacts| < |trees| && Seeded(artifacts, n, before, trees)
    requires trees[n + 1] == trees[n] + tree
    requires var a := artifacts[n];
             && a.artifact in after
             && (a.artifact !in before ==> after[a.artifact] == AnalyzedEntry(a))
             && (forall x :: x in before ==> x in after && after[x] == before[x])
             && after.Keys <= before.Keys + tree
    ensures Seeded(artifacts, n + 1, after, trees)
  {
    forall j | 0 <= j < n ensures artifacts[j].artifact in after {
      assert artifacts[j].artifact in before;
    }
    assert artifacts[n].artifact !in trees[n] ==> artifacts[n].artifact !in before;
  }

  function Elements<T>(xs: seq<T>): set<T>
  {
    set x | x in xs
  }

  // LOOKUP

  /** `getExistingNodeForArtifact` as written: its message format contains
      "% b" where "%s" was meant, and formatting it throws a
      FormatFlagsConversionMismatchException, an IllegalArgumentException,
      in place of the intended IllegalStateException. */
  function ExistingAsWritten(nodes: map<ArtifactCoordinates, GraphEntry>, x: ArtifactCoordinates): (r: Result<GraphEntry>)
    ensures r.Ok? <==> x in nodes
    ensures r.Ok? ==> r.value == nodes[x]
    ensures r.Err? ==> r.error == IllegalArgument
  {
    if x in nodes then Ok(nodes[x]) else Err(IllegalArgument)
  }

  /** `getExistingNodeForArtifact` as intended: a missing node is an
      IllegalStateException. */
  function Existing(nodes: map<ArtifactCoordinates, GraphEntry>, x: ArtifactCoordinates): (r: Result<GraphEntry>)
    ensures r.Ok? <==> x in nodes
    ensures r.Ok? ==> r.value == nodes[x]
    ensures r.Err? ==> r.error == IllegalState
  {
    if x in nodes then Ok(nodes[x]) else Err(IllegalState)
  }

  /** The two lookups agree on every present node and differ, in the
      exception's class, on every missing one. */
  lemma MissingNodeThrowsWrongException(nodes: map<ArtifactCoordinates, GraphEntry>, x: ArtifactCoordinates)
    ensures x in nodes ==> ExistingAsWritten(nodes, x) == Existing(nodes, x)
    ensures x !in nodes ==> ExistingAsWritten(nodes, x) == Err(IllegalArgument) && Existing(nodes, x) == Err(IllegalState)
  {
  }

  /** The analysis graph. Every project pair and every recorded dependee or
      dependent names a node of the graph. */
  /** Pairs registered in two steps, each for coordinates within `outer`,
      are all for coordinates within `outer`. */
  lemma NewPairsWithin(
    projects0: set<(ProjectCoordinates, ArtifactCoordinates)>, projects1: set<(ProjectCoordinates, ArtifactCoordinates)>,
    projects2: set<(ProjectCoordinates, ArtifactCoordinates)>, inner: set<ArtifactCoordinates>, outer: set<ArtifactCoordinates>)
    requires inner <= outer
    requires forall p, x :: (p, x) in projects1 && (p, x) !in projects0 ==> p == ProjectOf(x) && x in outer
    requires forall p, x :: (p, x) in projects2 && (p, x) !in projects1 ==> p == ProjectOf(x) && x in inner
    ensures forall p, x :: (p, x) in projects2 && (p, x) !in projects0 ==> p == ProjectOf(x) && x in outer
  {
  }

  class AnalysisGraph {
    var projects: set<(ProjectCoordinates, ArtifactCoordinates)>
    var nodes: map<ArtifactCoordinates, GraphEntry>

    ghost predicate Valid()
      reads this
    {
      GraphValid(projects, nodes)
    }

    /** The empty graph. */
    constructor ()
      ensures Valid() && projects == {} && nodes == map[]
    {
      projects, nodes := {}, map[];
    }

    /** The graph seeded with artifacts that were deeply analysed before:
        each of them has a node, an artifact whose coordinates no earlier
        artifact's tree holds gets the node built from it, and every node is
        for coordinates in one of the trees. */
    constructor FromAnalyzed(artifacts: seq<DeeplyAnalyzedArtifact>)
      ensures Valid()
      ensures forall i :: 0 <= i < |artifacts| ==> artifacts[i].artifact in nodes
      ensures forall i :: 0 <= i < |artifacts| && artifacts[i].artifact !in Trees(artifacts, i) ==>
                nodes[artifacts[i].artifact] == AnalyzedEntry(artifacts[i])
      ensures nodes.Keys <= Trees(artifacts, |artifacts|)
    {
      projects, nodes := {}, map[];
      new;
      ghost var trees := TreesUpTo(artifacts);
      TreesUpToSteps(artifacts);
      AddAllAnalyzed(artifacts, trees);
      SeededAll(artifacts, nodes, trees);
    }

    /** `addAnalyzedArtifact` for each artifact in turn, where `trees[j]`
        holds the coordinates of the first `j` artifacts' trees. */
    method AddAllAnalyzed(artifacts: seq<DeeplyAnalyzedArtifact>, ghost trees: seq<set<ArtifactCoordinates>>)
      requires Valid() && |trees| == |artifacts| + 1 && Seeded(artifacts, 0, nodes, trees)
      requires forall n :: 0 <= n < |artifacts| ==> trees[n + 1] == trees[n] + TreeCoordinates(artifacts[n])
      modifies this
      ensures Valid() && Seeded(artifacts, |artifacts|, nodes, trees)
    {
      var i := 0;
      while i < |artifacts|
        invariant 0 <= i <= |artifacts|
        invariant Valid()
        invariant Seeded(artifacts, i, nodes, trees)
      {
        ghost var before := nodes;
        AddAnalyzedArtifact(artifacts[i]);
        SeededStep(artifacts, i, before, nodes, trees, TreeCoordinates(artifacts[i]));
        i := i + 1;
      }
    }

    /** `addAnalyzedArtifact`: nothing happens when a node for the
        coordinates exists; otherwise the dependees are added first, then
        the artifact's node, with analysis and resolution succeeded, is
        registered under its project and in the graph. Nodes that existed
        stay as they were. */
    method AddAnalyzedArtifact(a: DeeplyAnalyzedArtifact)
      requires Valid()
      modifies this
      decreases a
      ensures Valid()
      ensures a.artifact in old(nodes) ==> nodes == old(nodes) && projects == old(projects)
      ensures a.artifact in nodes
      ensures a.artifact !in old(nodes) ==>
                nodes[a.artifact] == AnalyzedEntry(a) && (ProjectOf(a.artifact), a.artifact) in projects
      ensures forall x :: x in old(nodes) ==> x in nodes && nodes[x] == old(nodes)[x]
      ensures nodes.Keys <= old(nodes).Keys + TreeCoordinates(a)
      ensures old(projects) <= projects
      ensures forall p, x :: (p, x) in projects && (p, x) !in old(projects) ==> p == ProjectOf(x) && x in TreeCoordinates(a)
    {
      if a.artifact in nodes {
        return;
      }
      ghost var nodes0, projects0 := nodes, projects;
      var i := 0;
      while i < |a.dependees|
        invariant 0 <= i <= |a.dependees|
        invariant Valid()
        invariant forall x :: x in nodes0 ==> x in nodes && nodes[x] == nodes0[x]
        invariant nodes.Keys <= nodes0.Keys + TreeCoordinates(a)
        invariant projects0 <= projects
        invariant forall p, x :: (p, x) in projects && (p, x) !in projects0 ==> p == ProjectOf(x) && x in TreeCoordinates(a)
        invariant forall j :: 0 <= j < i ==> a.dependees[j].artifact in nodes
      {
        ghost var projects1 := projects;
        AddAnalyzedArtifact(a.dependees[i]);
        SubtreeCoordinates(a, i);
        NewPairsWithin(projects0, projects1, projects, TreeCoordinates(a.dependees[i]), TreeCoordinates(a));
        i := i + 1;
      }
      projects := projects + {(ProjectOf(a.artifact), a.artifact)};
      nodes := nodes[a.artifact := AnalyzedEntry(a)];
    }

    /** `registerArtifact`: the existing node is reused, or a fresh one
        created; either way it is registered under its project. */
    method RegisterArtifact(x: ArtifactCoordinates)
      requires Valid()
      modifies this
      ensures Valid()
      ensures nodes == if x in old(nodes) then old(nodes) else old(nodes)[x := FreshEntry]
      ensures projects == old(projects) + {(ProjectOf(x), x)}
    {
      var entry := if x in nodes then nodes[x] else FreshEntry;
      projects := projects + {(ProjectOf(x), x)};
      nodes := nodes[x := entry];
    }

    /** `resolvedVersions`: every version gets a node, reused if it exists,
        registered under the resolved project; a pair already registered is
        not duplicated. */
    method ResolvedVersions(project: ResolvedProject)
      requires Valid()
      modifies this
      ensures Valid()
      ensures nodes.Keys == old(nodes).Keys + Elements(project.versions)
      ensures forall x :: x in old(nodes) ==> nodes[x] == old(nodes)[x]
      ensures forall x :: x in nodes && x !in old(nodes) ==> nodes[x] == FreshEntry
      ensures projects == old(projects) + VersionPairs(project.project, project.versions)
    {
      ghost var nodes0, projects0 := nodes, projects;
      var i := 0;
      while i < |project.versions|
        invariant 0 <= i <= |project.versions|
        invariant Valid()
        invariant nodes.Keys == nodes0.Keys + Elements(project.versions[..i])
        invariant forall x :: x in nodes0 ==> nodes[x] == nodes0[x]
        invariant forall x :: x in nodes && x !in nodes0 ==> nodes[x] == FreshEntry
        invariant projects == projects0 + VersionPairs(project.project, project.versions[..i])
      {
        var v := project.versions[i];
        RegisterVersion(project.project, v);
        assert project.versions[..i + 1] == project.versions[..i] + [v];
        ElementsAppend(project.versions[..i], v);
        VersionPairsAppend(project.project, project.versions[..i], v);
        i := i + 1;
      }
      assert project.versions[..i] == project.versions;
    }

    /** One version of `resolvedVersions`: `getOrCreateNodeForArtifact`,
        then `registerNodeForProject` and `registerNodeInGraph`. */
    method RegisterVersion(p: ProjectCoordinates, v: ArtifactCoordinates)
      requires Valid()
      modifies this
      ensures Valid()
      ensures nodes == old(nodes)[v := Before(old(nodes), v)]
      ensures projects == old(projects) + {(p, v)}
    {
      var entry := if v in nodes then nodes[v] else FreshEntry;
      projects := projects + {(p, v)};
      nodes := nodes[v := entry];
    }

    /** `downloadOf(x)` followed by a transition of the download task. */
    method UpdateDownload(x: ArtifactCoordinates, ev: Event<string>) returns (r: Result<()>)
      requires Valid()
      modifies this
      ensures Valid() && projects == old(projects)
      ensures r.Ok? <==> x in old(nodes) && Step(old(nodes)[x].jarFile, ev).Ok?
      ensures r.Ok? ==> nodes == old(nodes)[x := old(nodes)[x].(jarFile := Step(old(nodes)[x].jarFile, ev).value)]
      ensures r.Err? ==> nodes == old(nodes) && r.error == IllegalState
    {
      var n :- Existing(nodes, x);
      var s :- Step(n.jarFile, ev);
      nodes := nodes[x := n.(jarFile := s)];
      return Ok(());
    }

    /** `analysisOf(x)` followed by a transition of the analysis task. */
    method UpdateAnalysis(x: ArtifactCoordinates, ev: Event<seq<Violation>>) returns (r: Result<()>)
      requires Valid()
      modifies this
      ensures Valid() && projects == old(projects)
      ensures r.Ok? <==> x in old(nodes) && Step(old(nodes)[x].violations, ev).Ok?
      ensures r.Ok? ==> nodes == old(nodes)[x := old(nodes)[x].(violations := Step(old(nodes)[x].violations, ev).value)]
      ensures r.Err? ==> nodes == old(nodes) && r.error == IllegalState
    {
      var n :- Existing(nodes, x);
      var s :- Step(n.violations, ev);
      nodes := nodes[x := n.(violations := s)];
      return Ok(());
    }

    /** `resolutionOf(x)` followed by queuing, starting or failing: the
        wrapper hands these to the node's dependee task unchanged. */
    method UpdateResolution(x: ArtifactCoordinates, ev: Event<set<ArtifactCoordinates>>) returns (r: Result<()>)
      requires Valid() && !ev.SucceedEvent?
      modifies this
      ensures Valid() && projects == old(projects)
      ensures r.Ok? <==> x in old(nodes) && Step(old(nodes)[x].dependees, ev).Ok?
      ensures r.Ok? ==> nodes == old(nodes)[x := old(nodes)[x].(dependees := Step(old(nodes)[x].dependees, ev).value)]
      ensures r.Err? ==> nodes == old(nodes) && r.error == IllegalState
    {
      var n :- Existing(nodes, x);
      var s :- Step(n.dependees, ev);
      nodes := nodes[x := n.(dependees := s)];
      return Ok(());
    }

    /** `resolutionOf(x).succeeded(result)`: each dependee is registered and
        records `x` as a dependent, and only then is the dependee task
        succeeded; so when the task refuses, the registrations stay. */
    method ResolutionSucceeded(x: ArtifactCoordinates, result: set<ArtifactCoordinates>) returns (r: Result<()>)
      requires Valid()
      modifies this
      ensures Valid()
      ensures x !in old(nodes) ==> r == Err(IllegalState) && nodes == old(nodes) && projects == old(projects)
      ensures x in old(nodes) ==> DependeesRegistered(old(nodes), nodes, old(projects), projects, x, result)
      ensures x in old(nodes) ==> (r.Ok? <==> Succeed(old(nodes)[x].dependees, result).Ok?)
      ensures x in old(nodes) && r.Ok? ==>
                nodes[x] == old(nodes)[x].(dependees := Succeeded(result), dependents := nodes[x].dependents)
      ensures x in old(nodes) && r.Err? ==>
                r.error == IllegalState && nodes[x] == old(nodes)[x].(dependents := nodes[x].dependents)
    {
      var dependent :- Existing(nodes, x);
      RegisterDependees(x, result);
      var s :- Succeed(nodes[x].dependees, result);
      nodes := nodes[x := nodes[x].(dependees := s)];
      return Ok(());
    }

    /** The registration half of `succeeded`: every dependee is registered
        and gets `x` as a dependent. */
    method RegisterDependees(x: ArtifactCoordinates, result: set<ArtifactCoordinates>)
      requires Valid() && x in nodes
      modifies this
      ensures Valid() && x in nodes
      ensures DependeesRegistered(old(nodes), nodes, old(projects), projects, x, result)
      ensures nodes[x] == old(nodes)[x].(dependents := nodes[x].dependents)
    {
      projects, nodes := RegisterDependeesIn(projects, nodes, x, result);
    }

    /** `resolutionOf(x).result()`: the coordinates of the dependee nodes. */
    function ResolutionResult(x: ArtifactCoordinates): (r: Result<set<ArtifactCoordinates>>)
      reads this
      ensures r.Ok? <==> x in nodes && nodes[x].dependees.Succeeded?
      ensures r.Ok? ==> r.value == nodes[x].dependees.result
      ensures r.Err? ==> r.error == IllegalState
    {
      if x !in nodes then Err(IllegalState)
      else if nodes[x].dependees.Succeeded? then Ok(nodes[x].dependees.result)
      else Err(IllegalState)
    }
  }

  /** A node as it was before an update, or a fresh one if it did not exist. */
  function Before(nodes: map<ArtifactCoordinates, GraphEntry>, y: ArtifactCoordinates): GraphEntry
  {
    if y in nodes then nodes[y] else FreshEntry
  }

  /** A dependee's tree lies inside its dependent's tree. */
  lemma SubtreeCoordinates(a: DeeplyAnalyzedArtifact, i: nat)
    requires i < |a.dependees|
    ensures TreeCoordinates(a.dependees[i]) <= TreeCoordinates(a)
  {
    forall c | c in TreeCoordinates(a.dependees[i])
      ensures c in TreeCoordinates(a)
    {
    }
  }

  /** Every project pair and every recorded dependee or dependent names a
      node of the graph. */
  ghost predicate GraphValid(projects: set<(ProjectCoordinates, ArtifactCoordinates)>, nodes: map<ArtifactCoordinates, GraphEntry>)
  {
    && (forall p, x :: (p, x) in projects ==> x in nodes)
    && (forall x :: x in nodes && nodes[x].dependees.Succeeded? ==> nodes[x].dependees.result <= nodes.Keys)
    && (forall x :: x in nodes ==> nodes[x].dependents <= nodes.Keys)
  }

  /** `registerArtifact(d)` followed by `d.addAsDependent(x)`. */
  function WithDependent(nodes: map<ArtifactCoordinates, GraphEntry>, x: ArtifactCoordinates, d: ArtifactCoordinates): map<ArtifactCoordinates, GraphEntry>
  {
    nodes[d := Before(nodes, d).(dependents := Before(nodes, d).dependents + {x})]
  }

  /** The loop of `succeeded` over the dependees, on the graph's maps. */
  method RegisterDependeesIn(
    projects: set<(ProjectCoordinates, ArtifactCoordinates)>, nodes: map<ArtifactCoordinates, GraphEntry>,
    x: ArtifactCoordinates, result: set<ArtifactCoordinates>)
    returns (projects': set<(ProjectCoordinates, ArtifactCoordinates)>, nodes': map<ArtifactCoordinates, GraphEntry>)
    requires GraphValid(projects, nodes) && x in nodes
    ensures GraphValid(projects', nodes') && x in nodes'
    ensures DependeesRegistered(nodes, nodes', projects, projects', x, result)
    ensures nodes'[x] == nodes[x].(dependents := nodes'[x].dependents)
  {
    projects', nodes' := projects, nodes;
    var rest := result;
    ghost var done: set<ArtifactCoordinates> := {};
    while rest != {}
      invariant rest + done == result && rest !! done
      invariant GraphValid(projects', nodes') && x in nodes'
      invariant DependeesRegistered(nodes, nodes', projects, projects', x, done)
      invariant nodes'[x] == nodes[x].(dependents := nodes'[x].dependents)
      decreases rest
    {
      var d :| d in rest;
      var projects2, nodes2 := projects' + {(ProjectOf(d), d)}, WithDependent(nodes', x, d);
      RegisteredStep(nodes, nodes', projects, projects', x, done, d);
      RegisteredStepValid(projects', nodes', x, d);
      projects', nodes' := projects2, nodes2;
      rest, done := rest - {d}, done + {d};
    }
  }

  /** After registering the dependees `ds` of `x`: the graph gained their
      nodes and project pairs, each of them, and nothing else, gained `x`
      as a dependent, and no node other than `x` changed otherwise. */
  ghost predicate DependeesRegistered(
    nodes0: map<ArtifactCoordinates, GraphEntry>, nodes: map<ArtifactCoordinates, GraphEntry>,
    projects0: set<(ProjectCoordinates, ArtifactCoordinates)>, projects: set<(ProjectCoordinates, ArtifactCoordinates)>,
    x: ArtifactCoordinates, ds: set<ArtifactCoordinates>)
  {
    && (forall y :: y in nodes <==> y in nodes0 || y in ds)
    && (forall p, y :: (p, y) in projects <==> (p, y) in projects0 || (y in ds && p == ProjectOf(y)))
    && (forall y :: y in nodes ==>
          nodes[y].dependents == Before(nodes0, y).dependents + (if y in ds then {x} else {}))
    && (forall y :: y in nodes && y != x ==> nodes[y] == Before(nodes0, y).(dependents := nodes[y].dependents))
  }

  lemma RegisteredStep(
    nodes0: map<ArtifactCoordinates, GraphEntry>, nodes1: map<ArtifactCoordinates, GraphEntry>,
    projects0: set<(ProjectCoordinates, ArtifactCoordinates)>, projects1: set<(ProjectCoordinates, ArtifactCoordinates)>,
    x: ArtifactCoordinates, ds: set<ArtifactCoordinates>, d: ArtifactCoordinates)
    requires DependeesRegistered(nodes0, nodes1, projects0, projects1, x, ds) && d !in ds
    ensures DependeesRegistered(nodes0, WithDependent(nodes1, x, d), projects0, projects1 + {(ProjectOf(d), d)}, x, ds + {d})
  {
    if d !in nodes1 {
      assert d !in nodes0;
    }
  }

  lemma RegisteredStepValid(
    projects1: set<(ProjectCoordinates, ArtifactCoordinates)>, nodes1: map<ArtifactCoordinates, GraphEntry>,
    x: ArtifactCoordinates, d: ArtifactCoordinates)
    requires GraphValid(projects1, nodes1) && x in nodes1
    ensures var nodes2 := WithDependent(nodes1, x, d);
            && GraphValid(projects1 + {(ProjectOf(d), d)}, nodes2) && x in nodes2
            && nodes2[x] == nodes1[x].(dependents := nodes2[x].dependents)
  {
  }

  /** `registerNodeForProject` pairs of the versions of a project. */
  function VersionPairs(p: ProjectCoordinates, xs: seq<ArtifactCoordinates>): set<(ProjectCoordinates, ArtifactCoordinates)>
  {
    set v | v in xs :: (p, v)
  }

  lemma ElementsAppend<T>(xs: seq<T>, x: T)
    ensures Elements(xs + [x]) == Elements(xs) + {x}
  {
    assert forall y :: y in xs + [x] <==> y in xs || y == x;
  }

  lemma VersionPairsAppend(p: ProjectCoordinates, xs: seq<ArtifactCoordinates>, v: ArtifactCoordinates)
    ensures VersionPairs(p, xs + [v]) == VersionPairs(p, xs) + {(p, v)}
  {
    assert forall y :: y in xs + [v] <==> y in xs || y == v;
  }

  // THE GRAPH NODE WITH ONCE-ONLY FIELDS

  /** `jarFile()` as written guards with `throwIfPresent` instead of
      `throwIfNotPresent`: with a JAR recorded it throws an
      IllegalStateException, and without one `Optional.get` throws a
      NoSuchElementException, so it never returns. */
  function JarFileAsWritten(jar: Option<string>): (r: Result<string>)
    ensures r.Err?
    ensures jar.Some? ==> r.error == IllegalState
    ensures jar.None? ==> r.error == NoSuchElement
  {
    if jar.Some? then Err(IllegalState) else Err(NoSuchElement)
  }

  /** `jarFile()` as intended, like `violations()`: the recorded JAR, or an
      IllegalStateException before the download. */
  function JarFile(jar: Option<string>): (r: Result<string>)
    ensures r.Ok? <==> jar.Some?
    ensures r.Ok? ==> r.value == jar.value
    ensures r.Err? ==> r.error == IllegalState
  {
    if jar.Some? then Ok(jar.value) else Err(IllegalState)
  }

  /** `violations()`: the recorded violations, or an IllegalStateException
      before the analysis. */
  function ViolationsOf(violations: Option<seq<Violation>>): (r: Result<seq<Violation>>)
    ensures r.Ok? <==> violations.Some?
    ensures r.Ok? ==> r.value == violations.value
    ensures r.Err? ==> r.error == IllegalState
  {
    if violations.Some? then Ok(violations.value) else Err(IllegalState)
  }

  /** `dependees()` as written checks whether the violations, not the
      dependees, are present: it throws an IllegalStateException for a
      resolved node that was not analysed, and a NoSuchElementException for
      an analysed node that was not resolved. */
  function DependeesAsWritten(violations: Option<seq<Violation>>, dependees: Option<set<ArtifactCoordinates>>): (r: Result<set<ArtifactCoordinates>>)
    ensures r.Ok? <==> violations.Some? && dependees.Some?
    ensures r.Ok? ==> r.value == dependees.value
    ensures violations.None? ==> r == Err(IllegalState)
    ensures violations.Some? && dependees.None? ==> r == Err(NoSuchElement)
  {
    if violations.None? then Err(IllegalState)
    else if dependees.None? then Err(NoSuchElement)
    else Ok(dependees.value)
  }

  /** `dependees()` as intended: the recorded dependees, or an
      IllegalStateException before the resolution. */
  function DependeesOf(dependees: Option<set<ArtifactCoordinates>>): (r: Result<set<ArtifactCoordinates>>)
    ensures r.Ok? <==> dependees.Some?
    ensures r.Ok? ==> r.value == dependees.value
    ensures r.Err? ==> r.error == IllegalState
  {
    if dependees.Some? then Ok(dependees.value) else Err(IllegalState)
  }

  /** A downloaded JAR is never returned by the getter as written, while the
      intended getter returns it. */
  lemma JarFileNeverReturned(path: string)
    ensures JarFileAsWritten(Some(path)) == Err(IllegalState)
    ensures JarFile(Some(path)) == Ok(path)
  {
  }

  /** A resolved node that was not analysed has dependees the getter as
      written refuses, and an analysed node that was not resolved gets the
      wrong exception. */
  lemma DependeesGuardedByViolations(ds: set<ArtifactCoordinates>, vs: seq<Violation>)
    ensures DependeesAsWritten(None, Some(ds)) == Err(IllegalState)
    ensures DependeesOf(Some(ds)) == Ok(ds)
    ensures DependeesAsWritten(Some(vs), None) == Err(NoSuchElement)
    ensures DependeesOf(None) == Err(IllegalState)
  {
  }

  /** Where both are answered, the getter as written agrees with the
      intended one. */
  lemma DependeesAgreeWhenAnalysed(vs: seq<Violation>, dependees: Option<set<ArtifactCoordinates>>)
    ensures DependeesAsWritten(Some(vs), dependees).Ok? ==> DependeesAsWritten(Some(vs), dependees) == DependeesOf(dependees)
    ensures DependeesOf(dependees).Ok? ==> DependeesAsWritten(Some(vs), dependees) == DependeesOf(dependees)
  {
  }

  /** `AnalysisGraphNode`: an artifact with a JAR, violations, dependees and
      a marker, each recorded at most once, and the set of its dependents.
      Nodes compare by coordinates, so sets of nodes are kept as sets of
      coordinates. */
  class GraphNode {
    const artifact: ArtifactCoordinates
    var dependents: set<ArtifactCoordinates>
    var jarFile: Option<string>
    var violations: Option<seq<Violation>>
    var dependees: Option<set<ArtifactCoordinates>>
    var internalDependenciesMarker: Option<Internal>

    /** A fresh node has nothing recorded and no dependents. */
    constructor (artifact: ArtifactCoordinates)
      ensures this.artifact == artifact && dependents == {}
      ensures jarFile.None? && violations.None? && dependees.None? && internalDependenciesMarker.None?
    {
      this.artifact := artifact;
      dependents := {};
      jarFile, violations, dependees, internalDependenciesMarker := None, None, None, None;
    }

    predicate WasDownloaded()
      reads this
    {
      jarFile.Some?
    }

    predicate WasAnalyzed()
      reads this
    {
      violations.Some?
    }

    predicate WasResolved()
      reads this
    {
      dependees.Some?
    }

    /** `downloaded`: records the JAR once; a second call throws and
        changes nothing. */
    method Downloaded(jar: string) returns (r: Result<()>)
      modifies this
      ensures old(WasDownloaded()) ==> r == Err(IllegalState) && jarFile == old(jarFile)
      ensures !old(WasDownloaded()) ==> r.Ok? && jarFile == Some(jar) && WasDownloaded()
      ensures violations == old(violations) && dependees == old(dependees) && dependents == old(dependents)
      ensures internalDependenciesMarker == old(internalDependenciesMarker)
    {
      if jarFile.Some? {
        return Err(IllegalState);
      }
      jarFile := Some(jar);
      return Ok(());
    }

    /** `analyzed`: records the violations once. */
    method Analyzed(vs: seq<Violation>) returns (r: Result<()>)
      modifies this
      ensures old(WasAnalyzed()) ==> r == Err(IllegalState) && violations == old(violations)
      ensures !old(WasAnalyzed()) ==> r.Ok? && violations == Some(vs) && WasAnalyzed()
      ensures jarFile == old(jarFile) && dependees == old(dependees) && dependents == old(dependents)
      ensures internalDependenciesMarker == old(internalDependenciesMarker)
    {
      if violations.Some? {
        return Err(IllegalState);
      }
      violations := Some(vs);
      return Ok(());
    }

    /** `resolved`: records the dependees once and adds this node to the
        dependents of each of them. */
    method Resolved(ds: set<GraphNode>) returns (r: Result<()>)
      modifies this, ds
      ensures old(WasResolved()) ==> r == Err(IllegalState) && dependees == old(dependees)
      ensures old(WasResolved()) ==> forall d :: d in ds ==> d.dependents == old(d.dependents)
      ensures !old(WasResolved()) ==> r.Ok? && dependees == Some(set d | d in ds :: d.artifact) && WasResolved()
      ensures !old(WasResolved()) ==> forall d :: d in ds ==> d.dependents == old(d.dependents) + {artifact}
      ensures jarFile == old(jarFile) && violations == old(violations)
      ensures internalDependenciesMarker == old(internalDependenciesMarker)
      ensures this !in ds ==> dependents == old(dependents)
      ensures forall d :: d in ds ==> d.jarFile == old(d.jarFile) && d.violations == old(d.violations)
    {
      if dependees.Some? {
        return Err(IllegalState);
      }
      dependees := Some(set d | d in ds :: d.artifact);
      var rest := ds;
      while rest != {}
        invariant rest <= ds
        invariant dependees == Some(set d | d in ds :: d.artifact)
        invariant jarFile == old(jarFile) && violations == old(violations)
        invariant internalDependenciesMarker == old(internalDependenciesMarker)
        invariant this !in ds ==> dependents == old(dependents)
        invariant forall d :: d in ds ==> d.jarFile == old(d.jarFile) && d.violations == old(d.violations)
        invariant forall d :: d in ds ==> d.dependents == old(d.dependents) + (if d in rest then {} else {artifact})
        decreases rest
      {
        var d :| d in rest;
        d.dependents := d.dependents + {artifact};
        rest := rest - {d};
      }
      return Ok(());
    }
  }
}
