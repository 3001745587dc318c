/** `AnalysisTaskManager`: it walks the analysis graph, queues the next task
    of every node on the channel for that task, feeds the answers that come
    back into the nodes' tasks, and sends every artifact whose whole
    dependee tree is analysed to the output channel. */
module TaskManagers {
  import opened Wrappers
  import opened Coordinates
  import opened Markers
  import opened Violations
  import opened Artifacts
  import opened Tasks
  import Analyses

  /** The four tasks of an artifact node: the download (its result is the
      jar's path), the analysis, the dependency resolution and the deep
      analysis. */
  datatype ArtifactNode = ArtifactNode(
    download: State<string>,
    analysis: State<seq<Violation>>,
    resolution: State<seq<ArtifactCoordinates>>,
    deepAnalysis: State<DeeplyAnalyzedArtifact>)

  /** A node as the graph creates it: nothing computed yet. */
  const FreshNode := ArtifactNode(NotComputed, NotComputed, NotComputed, NotComputed)

  /** The artifact nodes of the graph, by coordinates. */
  type Nodes = map<ArtifactCoordinates, ArtifactNode>

  /** The project nodes of the graph: each holds its version resolution. */
  type ProjectNodes = map<ProjectCoordinates, State<seq<ArtifactCoordinates>>>

  // FINISHING

  /** `getMarkerForInternalDependencies`. */
  function MarkerForInternalDependencies(violations: seq<Violation>, dependees: seq<DeeplyAnalyzedArtifact>): Internal
  {
    if |violations| == 0 then FoldWithDependees(Internal.NONE, Analyses.InternalMarkers(dependees))
    else Internal.DIRECT
  }

  /** The marker is DIRECT exactly for an artifact with violations of its
      own, otherwise NONE exactly when no dependee is marked; it is the
      marker the `Analysis` store derives for the same artifact. */
  lemma MarkerForInternalDependenciesMeaning(
    a: ArtifactCoordinates, violations: seq<Violation>, dependees: seq<DeeplyAnalyzedArtifact>)
    ensures var m := MarkerForInternalDependencies(violations, dependees);
            && (m.DIRECT? <==> |violations| > 0)
            && (m.NONE? <==> |violations| == 0 && forall i :: 0 <= i < |dependees| ==> dependees[i].marker.NONE?)
            && Analyses.MarkerDerived(DeeplyAnalyzedArtifact(a, m, violations, dependees))
  {
    var ms := Analyses.InternalMarkers(dependees);
    FoldWithDependeesResult(Internal.NONE, ms);
    FoldWithDependeesResult(Internal.DIRECT, ms);
  }

  /** `readyToFinish`: analysed and resolved, but not yet deeply analysed. */
  predicate ReadyToFinish(n: ArtifactNode)
  {
    Id(n.analysis) == SUCCEEDED && Id(n.resolution) == SUCCEEDED && Id(n.deepAnalysis) != SUCCEEDED
  }

  /** Every dependee a resolution found is a node of the graph: the graph
      registers the dependees before the resolution succeeds. */
  /** The dependees the resolution of `x` found; none while it has not
      succeeded. */
  function Dependees(nodes: Nodes, x: ArtifactCoordinates): seq<ArtifactCoordinates>
  {
    if x in nodes && nodes[x].resolution.Succeeded? then nodes[x].resolution.result else []
  }

  ghost predicate Registered(nodes: Nodes)
  {
    forall x, d :: d in Dependees(nodes, x) ==> d in nodes
  }

  /** Only finishing touches a deep analysis: it has not been computed, or it
      succeeded for an analysed and resolved node, under the node's
      coordinates, with the node's violations and the marker derived from
      them. */
  ghost predicate DeepState(x: ArtifactCoordinates, n: ArtifactNode)
  {
    || n.deepAnalysis.NotComputed?
    || (&& n.deepAnalysis.Succeeded?
        && n.resolution.Succeeded?
        && var f := n.deepAnalysis.result;
           && f.artifact == x
           && n.analysis == Succeeded(f.violations)
           && f.marker == MarkerForInternalDependencies(f.violations, f.dependees))
  }

  ghost predicate DeepStates(nodes: Nodes)
  {
    forall x :: x in nodes ==> DeepState(x, nodes[x])
  }

  /** The dependee graph has no cycle: every resolved node outranks its
      dependees. */
  ghost predicate Ranked(nodes: Nodes, rank: map<ArtifactCoordinates, nat>)
  {
    forall x, d :: d in Dependees(nodes, x) ==> x in rank && d in rank && rank[d] < rank[x]
  }

  ghost predicate Acyclic(nodes: Nodes)
  {
    exists rank :: Ranked(nodes, rank)
  }

  function RankOf(rank: map<ArtifactCoordinates, nat>, x: ArtifactCoordinates): nat
  {
    if x in rank then rank[x] else 0
  }

  /** The node's analysis and resolution have succeeded, so finishing can
      read both results. */
  predicate Readable(n: ArtifactNode)
  {
    n.analysis.Succeeded? && n.resolution.Succeeded?
  }

  /** Finishing `x` while the nodes in `path` are being finished further up
      the recursion succeeds: `x` is deeply analysed already, or it is
      readable, not on the path, and so is every dependee, recursively. */
  ghost predicate FinishableFrom(nodes: Nodes, path: set<ArtifactCoordinates>, x: ArtifactCoordinates)
    decreases nodes.Keys - path
  {
    && x in nodes
    && (|| nodes[x].deepAnalysis.Succeeded?
        || (&& Readable(nodes[x])
            && x !in path
            && forall d :: d in Dependees(nodes, x) ==> FinishableFrom(nodes, path + {x}, d)))
  }

  /** Finishing `x` recurses without end: a walk over readable nodes that
      are not deeply analysed leads from `x` back into the path. */
  ghost predicate LoopsBack(nodes: Nodes, path: set<ArtifactCoordinates>, x: ArtifactCoordinates)
    decreases nodes.Keys - path
  {
    && x in nodes
    && !nodes[x].deepAnalysis.Succeeded?
    && Readable(nodes[x])
    && (|| x in path
        || exists d :: d in Dependees(nodes, x) && LoopsBack(nodes, path + {x}, d))
  }

  /** Finishing `x` can read a result that is not there: a walk over nodes
      that are not deeply analysed and not on the path leads from `x` to a
      node whose analysis or resolution has not succeeded. */
  ghost predicate ReachesUnreadable(nodes: Nodes, path: set<ArtifactCoordinates>, x: ArtifactCoordinates)
    decreases nodes.Keys - path
  {
    && x in nodes
    && !nodes[x].deepAnalysis.Succeeded?
    && (|| !Readable(nodes[x])
        || (&& x !in path
            && exists d :: d in Dependees(nodes, x) && ReachesUnreadable(nodes, path + {x}, d)))
  }

  /** No node of `path` differs between `a` and `b`. */
  ghost predicate Untouched(a: Nodes, b: Nodes, path: set<ArtifactCoordinates>)
  {
    forall p :: p in path && p in a && p in b ==> b[p] == a[p]
  }

  /** `b` is `a` after finishing some nodes: only their deep analyses
      changed, from not computed to a consistent success, and each of them
      was finishable in `a` from every path that finishing left alone. */
  ghost predicate Grown(a: Nodes, b: Nodes)
  {
    && a.Keys == b.Keys
    && forall y :: y in a && b[y] != a[y] ==>
         && a[y].deepAnalysis.NotComputed?
         && b[y] == a[y].(deepAnalysis := b[y].deepAnalysis)
         && DeepState(y, b[y])
         && b[y].deepAnalysis.Succeeded?
         && forall path :: Untouched(a, b, path) ==> FinishableFrom(a, path, y)
  }

  lemma GrownKeeps(a: Nodes, b: Nodes)
    requires Registered(a) && DeepStates(a) && Grown(a, b)
    ensures Registered(b) && DeepStates(b)
    ensures forall x :: Dependees(b, x) == Dependees(a, x)
  {
    forall y | y in b ensures y in a && b[y].resolution == a[y].resolution && DeepState(y, b[y]) {
      assert y in a.Keys;
      if b[y] != a[y] {
        assert b[y] == a[y].(deepAnalysis := b[y].deepAnalysis);
      }
    }
    forall x ensures Dependees(b, x) == Dependees(a, x) {
      if x in b { assert x in a.Keys; }
    }
  }

  /** Finishing more nodes keeps a finishable node finishable. */
  lemma {:induction false} FinishableForward(
    a: Nodes, b: Nodes, path: set<ArtifactCoordinates>, x: ArtifactCoordinates)
    requires Grown(a, b) && FinishableFrom(a, path, x)
    ensures FinishableFrom(b, path, x)
    decreases a.Keys - path
  {
    assert x in b.Keys;
    if b[x] == a[x] && !a[x].deepAnalysis.Succeeded? {
      forall d | d in Dependees(b, x)
        ensures FinishableFrom(b, path + {x}, d)
      {
        FinishableForward(a, b, path + {x}, d);
      }
    }
  }

  /** A node finishable after finishing some others was finishable before,
      from a path that finishing left alone. */
  lemma {:induction false} FinishableBack(
    a: Nodes, b: Nodes, path: set<ArtifactCoordinates>, x: ArtifactCoordinates)
    requires Grown(a, b) && Untouched(a, b, path) && FinishableFrom(b, path, x)
    ensures FinishableFrom(a, path, x)
    decreases a.Keys - path
  {
    assert x in a.Keys;
    if b[x] != a[x] {
      assert forall q :: Untouched(a, b, q) ==> FinishableFrom(a, q, x);
    } else if !a[x].deepAnalysis.Succeeded? {
      forall d | d in Dependees(a, x)
        ensures FinishableFrom(a, path + {x}, d)
      {
        assert Untouched(a, b, path + {x});
        FinishableBack(a, b, path + {x}, d);
      }
    }
  }

  /** A walk back into the path after finishing was there before. */
  lemma {:induction false} LoopsBackBack(
    a: Nodes, b: Nodes, path: set<ArtifactCoordinates>, x: ArtifactCoordinates)
    requires Grown(a, b) && LoopsBack(b, path, x)
    ensures LoopsBack(a, path, x)
    decreases a.Keys - path
  {
    assert x in a.Keys && a[x] == b[x];
    if x !in path {
      var d :| d in Dependees(b, x) && LoopsBack(b, path + {x}, d);
      LoopsBackBack(a, b, path + {x}, d);
    }
  }

  /** A walk to an unreadable node after finishing was there before. */
  lemma {:induction false} ReachesUnreadableBack(
    a: Nodes, b: Nodes, path: set<ArtifactCoordinates>, x: ArtifactCoordinates)
    requires Grown(a, b) && ReachesUnreadable(b, path, x)
    ensures ReachesUnreadable(a, path, x)
    decreases a.Keys - path
  {
    assert x in a.Keys && a[x] == b[x];
    if Readable(b[x]) {
      var d :| d in Dependees(b, x) && ReachesUnreadable(b, path + {x}, d);
      ReachesUnreadableBack(a, b, path + {x}, d);
    }
  }

  /** In a graph without cycles, a node outranked by every node on the path
      never leads back into the path. */
  lemma {:induction false} RankedNeverLoopsBack(
    nodes: Nodes, rank: map<ArtifactCoordinates, nat>, path: set<ArtifactCoordinates>, x: ArtifactCoordinates)
    requires Ranked(nodes, rank)
    requires forall p :: p in path ==> p in rank && RankOf(rank, x) < rank[p]
    ensures !LoopsBack(nodes, path, x)
    decreases nodes.Keys - path
  {
    if LoopsBack(nodes, path, x) && x !in path {
      var d :| d in Dependees(nodes, x) && LoopsBack(nodes, path + {x}, d);
      assert x in rank && d in rank && rank[d] < rank[x];
      RankedNeverLoopsBack(nodes, rank, path + {x}, d);
    }
  }

  /** A ranking puts every dependee below its dependent. */
  lemma RankedEdge(nodes: Nodes, rank: map<ArtifactCoordinates, nat>, x: ArtifactCoordinates, d: ArtifactCoordinates)
    requires d in Dependees(nodes, x)
    ensures Ranked(nodes, rank) ==> RankOf(rank, d) < RankOf(rank, x)
  {
  }

  /** What finishing `a` to `b` left alone it left alone in every step. */
  lemma UntouchedSplit(a: Nodes, b: Nodes, c: Nodes, path: set<ArtifactCoordinates>)
    requires Grown(a, b) && Grown(b, c) && Untouched(a, c, path)
    ensures Untouched(a, b, path) && Untouched(b, c, path)
  {
    forall p | p in path && p in a && p in b
      ensures b[p] == a[p]
    {
      assert p in c.Keys;
    }
  }

  lemma UntouchedTrans(a: Nodes, b: Nodes, c: Nodes, path: set<ArtifactCoordinates>)
    requires a.Keys == b.Keys == c.Keys && Untouched(a, b, path) && Untouched(b, c, path)
    ensures Untouched(a, c, path)
  {
  }

  lemma GrownTrans(a: Nodes, b: Nodes, c: Nodes)
    requires Grown(a, b) && Grown(b, c)
    ensures Grown(a, c)
  {
    forall y | y in a && c[y] != a[y]
      ensures forall path :: Untouched(a, c, path) ==> FinishableFrom(a, path, y)
    {
      forall path | Untouched(a, c, path)
        ensures FinishableFrom(a, path, y)
      {
        UntouchedSplit(a, b, c, path);
        if b[y] == a[y] {
          FinishableBack(a, b, path, y);
        }
      }
    }
    forall y | y in a && c[y] != a[y]
      ensures && a[y].deepAnalysis.NotComputed?
              && c[y] == a[y].(deepAnalysis := c[y].deepAnalysis)
              && DeepState(y, c[y])
              && c[y].deepAnalysis.Succeeded?
    {
      assert y in b.Keys;
    }
  }

  /** Recording the deep analysis of `x` once all its dependees are deeply
      analysed grows the graph. */
  lemma GrownFinishOne(a: Nodes, b: Nodes, x: ArtifactCoordinates, f: DeeplyAnalyzedArtifact)
    requires Grown(a, b) && x in a && b[x] == a[x]
    requires a[x].deepAnalysis.NotComputed? && Readable(a[x])
    requires forall d :: d in Dependees(a, x) ==> d in b && b[d].deepAnalysis.Succeeded?
    requires DeepState(x, a[x].(deepAnalysis := Succeeded(f)))
    ensures Grown(a, b[x := a[x].(deepAnalysis := Succeeded(f))])
  {
    var b' := b[x := a[x].(deepAnalysis := Succeeded(f))];
    forall path | Untouched(a, b', path)
      ensures FinishableFrom(a, path, x)
    {
      assert x !in path by {
        assert b'[x] != a[x];
      }
      forall d | d in Dependees(a, x)
        ensures FinishableFrom(a, path + {x}, d)
      {
        assert Untouched(a, b, path + {x});
      }
    }
    forall y | y in a && y != x && b'[y] != a[y]
      ensures forall path :: Untouched(a, b', path) ==> FinishableFrom(a, path, y)
    {
      forall path | Untouched(a, b', path)
        ensures FinishableFrom(a, path, y)
      {
        assert Untouched(a, b, path);
      }
    }
  }

  /** `g` is `f` or lies in the dependee tree of `f`. */
  ghost predicate InTree(f: DeeplyAnalyzedArtifact, g: DeeplyAnalyzedArtifact)
    decreases f
  {
    f == g || exists i :: 0 <= i < |f.dependees| && InTree(f.dependees[i], g)
  }

  /** Every deep analysis computed on the way from `nodes` to `after` lies
      in the dependee tree of one of `roots`. */
  ghost predicate Covered(nodes: Nodes, after: Nodes, roots: seq<DeeplyAnalyzedArtifact>)
  {
    forall y :: y in nodes && y in after && after[y] != nodes[y] ==>
      after[y].deepAnalysis.Succeeded? && exists i :: 0 <= i < |roots| && InTree(roots[i], after[y].deepAnalysis.result)
  }

  /** Coverage of two successive stretches of finishing combines. */
  lemma CoveredInTurn(a: Nodes, b: Nodes, c: Nodes, first: seq<DeeplyAnalyzedArtifact>, second: seq<DeeplyAnalyzedArtifact>)
    requires Grown(a, b) && Grown(b, c) && Covered(a, b, first) && Covered(b, c, second)
    ensures Covered(a, c, first + second)
  {
    forall y | y in a && y in c && c[y] != a[y]
      ensures c[y].deepAnalysis.Succeeded?
      ensures exists i :: 0 <= i < |first + second| && InTree((first + second)[i], c[y].deepAnalysis.result)
    {
      if b[y] != a[y] {
        assert c[y] == b[y];
        var i :| 0 <= i < |first| && InTree(first[i], b[y].deepAnalysis.result);
        assert (first + second)[i] == first[i];
      } else {
        var i :| 0 <= i < |second| && InTree(second[i], c[y].deepAnalysis.result);
        assert (first + second)[|first| + i] == second[i];
      }
    }
  }

  /** What finishing the dependees computed lies in the tree of the
      artifact built on them, and so does that artifact. */
  lemma CoveredByParent(nodes: Nodes, mid: Nodes, x: ArtifactCoordinates, f: DeeplyAnalyzedArtifact)
    requires mid.Keys == nodes.Keys && x in mid && Covered(nodes, mid, f.dependees)
    ensures Covered(nodes, mid[x := mid[x].(deepAnalysis := Succeeded(f))], [f])
  {
    var after := mid[x := mid[x].(deepAnalysis := Succeeded(f))];
    forall y | y in nodes && y in after && after[y] != nodes[y]
      ensures after[y].deepAnalysis.Succeeded?
      ensures exists i :: 0 <= i < |[f]| && InTree([f][i], after[y].deepAnalysis.result)
    {
      assert [f][0] == f;
      if y != x {
        var i :| 0 <= i < |f.dependees| && InTree(f.dependees[i], after[y].deepAnalysis.result);
        assert InTree(f, after[y].deepAnalysis.result);
      }
    }
  }

  /** Finishing the dependees of `x` in the order of its resolution, with
      `x` and the nodes of `path` on the way there. */
  method FinishDependees(nodes: Nodes, x: ArtifactCoordinates, path: set<ArtifactCoordinates>)
    returns (r: Result<seq<DeeplyAnalyzedArtifact>>, after: Nodes)
    requires x in nodes && x !in path && nodes[x].resolution.Succeeded?
    requires Registered(nodes) && DeepStates(nodes)
    ensures Grown(nodes, after) && Untouched(nodes, after, path + {x})
    ensures var ds := nodes[x].resolution.result;
            && (r.Ok? <==> forall d :: d in ds ==> FinishableFrom(nodes, path + {x}, d))
            && (r.Ok? ==>
                  && |r.value| == |ds|
                  && forall j :: 0 <= j < |ds| ==> ds[j] in after && after[ds[j]].deepAnalysis == Succeeded(r.value[j]))
            && (r == Err(StackOverflow) ==> exists d :: d in ds && LoopsBack(nodes, path + {x}, d))
            && (r == Err(IllegalState) ==> exists d :: d in ds && ReachesUnreadable(nodes, path + {x}, d))
    ensures r.Err? ==> r.error == IllegalState || r.error == StackOverflow
    ensures r.Ok? ==> Covered(nodes, after, r.value)
    ensures DependeesFinished(nodes, x) ==> after == nodes
    decreases nodes.Keys - path, 0
  {
    var ds := nodes[x].resolution.result;
    var cur := nodes;
    var done: seq<DeeplyAnalyzedArtifact> := [];
    var i := 0;
    while i < |ds|
      invariant 0 <= i <= |ds| && |done| == i
      invariant Grown(nodes, cur) && Untouched(nodes, cur, path + {x})
      invariant Registered(cur) && DeepStates(cur)
      invariant forall j :: 0 <= j < i ==> ds[j] in cur && cur[ds[j]].deepAnalysis == Succeeded(done[j])
      invariant forall j :: 0 <= j < i ==> FinishableFrom(nodes, path + {x}, ds[j])
      invariant Covered(nodes, cur, done)
      invariant DependeesFinished(nodes, x) ==> cur == nodes
    {
      var d := ds[i];
      assert d in Dependees(nodes, x);
      assert d in cur.Keys;
      var f, next := FinishRecursively(cur, d, path + {x});
      GrownTrans(nodes, cur, next);
      UntouchedTrans(nodes, cur, next, path + {x});
      if f.Err? {
        if FinishableFrom(nodes, path + {x}, d) {
          FinishableForward(nodes, cur, path + {x}, d);
        }
        if f.error == StackOverflow {
          LoopsBackBack(nodes, cur, path + {x}, d);
        } else {
          ReachesUnreadableBack(nodes, cur, path + {x}, d);
        }
        return Err(f.error), next;
      }
      FinishableBack(nodes, cur, path + {x}, d);
      GrownKeeps(cur, next);
      CoveredInTurn(nodes, cur, next, done, [f.value]);
      var done' := done + [f.value];
      forall j | 0 <= j <= i ensures ds[j] in next && next[ds[j]].deepAnalysis == Succeeded(done'[j]) {
        if j < i {
          assert done'[j] == done[j] && cur[ds[j]].deepAnalysis.Succeeded?;
        }
      }
      cur, done, i := next, done', i + 1;
    }
    return Ok(done), cur;
  }

  /** `finishArtifactRecursively`, called while the nodes of `path` are
      being finished further up the recursion: it reuses a deep analysis
      that succeeded already; otherwise it reads the node's violations and
      resolution, which throws unless both succeeded; a node that is on the
      path already starts the same recursion over again, without end;
      otherwise it finishes every dependee, derives the marker and records
      the deep analysis. */
  method FinishRecursively(nodes: Nodes, x: ArtifactCoordinates, path: set<ArtifactCoordinates>)
    returns (r: Result<DeeplyAnalyzedArtifact>, after: Nodes)
    requires x in nodes && Registered(nodes) && DeepStates(nodes)
    ensures Grown(nodes, after) && Untouched(nodes, after, path)
    ensures r.Ok? <==> FinishableFrom(nodes, path, x)
    ensures r.Ok? ==> after[x].deepAnalysis == Succeeded(r.value) && DeepState(x, after[x])
    ensures r == Err(StackOverflow) ==> LoopsBack(nodes, path, x)
    ensures r == Err(IllegalState) ==> ReachesUnreadable(nodes, path, x)
    ensures r.Err? ==> r.error == IllegalState || r.error == StackOverflow
    ensures nodes[x].deepAnalysis.Succeeded? ==> r == Ok(nodes[x].deepAnalysis.result) && after == nodes
    ensures r.Ok? ==> Covered(nodes, after, [r.value])
    ensures DependeesFinished(nodes, x) ==> forall y :: y in nodes && y != x ==> after[y] == nodes[y]
    decreases nodes.Keys - path, 1
  {
    var n := nodes[x];
    if n.deepAnalysis.Succeeded? {
      return Ok(n.deepAnalysis.result), nodes;
    }
    if !n.analysis.Succeeded? || !n.resolution.Succeeded? {
      return Err(IllegalState), nodes;
    }
    if x in path {
      return Err(StackOverflow), nodes;
    }
    var violations := n.analysis.result;
    var dependees;
    dependees, after := FinishDependees(nodes, x, path);
    if dependees.Err? {
      return Err(dependees.error), after;
    }
    var marker := MarkerForInternalDependencies(violations, dependees.value);
    var f := DeeplyAnalyzedArtifact(x, marker, violations, dependees.value);
    var deep := Succeed(after[x].deepAnalysis, f).value;
    GrownFinishOne(nodes, after, x, f);
    CoveredByParent(nodes, after, x, f);
    after := after[x := after[x].(deepAnalysis := deep)];
    r := Ok(f);
  }

  // QUEUEING

  ghost function Elements<X>(xs: seq<X>): set<X>
  {
    set i | 0 <= i < |xs| :: xs[i]
  }

  lemma ElementsAppend<X>(xs: seq<X>, ys: seq<X>)
    ensures Elements(xs + ys) == Elements(xs) + Elements(ys)
  {
    forall e | e in Elements(xs + ys)
      ensures e in Elements(xs) + Elements(ys)
    {
      var i :| 0 <= i < |xs + ys| && (xs + ys)[i] == e;
      if i >= |xs| {
        assert ys[i - |xs|] == e;
      }
    }
    forall e | e in Elements(xs)
      ensures e in Elements(xs + ys)
    {
      var i :| 0 <= i < |xs| && xs[i] == e;
      assert (xs + ys)[i] == e;
    }
    forall e | e in Elements(ys)
      ensures e in Elements(xs + ys)
    {
      var i :| 0 <= i < |ys| && ys[i] == e;
      assert (xs + ys)[|xs| + i] == e;
    }
  }

  /** `queueTaskFor*Node`: a task that is not computed is marked queued, any
      other task is left as it is. */
  function QueueIfNotComputed<R>(s: State<R>): State<R>
  {
    if Id(s) == NOT_COMPUTED then Queue(s).value else s
  }

  /** `queueTasksForArtifactNode` on the node's tasks: the download, then
      the analysis once the download succeeded, then the resolution. */
  function QueuedNode(n: ArtifactNode): ArtifactNode
  {
    var download := QueueIfNotComputed(n.download);
    n.(download := download,
       analysis := if Id(download) == SUCCEEDED then QueueIfNotComputed(n.analysis) else n.analysis,
       resolution := QueueIfNotComputed(n.resolution))
  }

  /** What `queueTasksForArtifactNode` sends for the node of `x` to the
      download, analysis and dependency-resolution channels. */
  function DownloadTasks(x: ArtifactCoordinates, n: ArtifactNode): seq<ArtifactCoordinates>
  {
    if Id(n.download) == NOT_COMPUTED then [x] else []
  }

  function AnalysisTasks(x: ArtifactCoordinates, n: ArtifactNode): seq<DownloadedArtifact>
  {
    if Id(n.download) == SUCCEEDED && Id(n.analysis) == NOT_COMPUTED
    then [DownloadedArtifact(x, n.download.result)] else []
  }

  function ResolutionTasks(x: ArtifactCoordinates, n: ArtifactNode): seq<ArtifactCoordinates>
  {
    if Id(n.resolution) == NOT_COMPUTED then [x] else []
  }

  /** A task is queued exactly when it is not computed, the analysis only
      once the download succeeded; it becomes QUEUED, and exactly then the
      node's coordinates (for the analysis, the downloaded jar) are sent.
      The deep analysis is never queued. */
  lemma QueuedNodeMeaning(x: ArtifactCoordinates, n: ArtifactNode)
    ensures var m := QueuedNode(n);
            && (m.download != n.download <==> n.download.NotComputed?)
            && (m.analysis != n.analysis <==> n.download.Succeeded? && n.analysis.NotComputed?)
            && (m.resolution != n.resolution <==> n.resolution.NotComputed?)
            && (m.download != n.download ==> m.download.Queued?)
            && (m.analysis != n.analysis ==> m.analysis.Queued?)
            && (m.resolution != n.resolution ==> m.resolution.Queued?)
            && m.deepAnalysis == n.deepAnalysis
            && DownloadTasks(x, n) == (if m.download != n.download then [x] else [])
            && AnalysisTasks(x, n) == (if m.analysis != n.analysis then [DownloadedArtifact(x, n.download.result)] else [])
            && ResolutionTasks(x, n) == (if m.resolution != n.resolution then [x] else [])
  {
  }

  /** The downloads, analyses and resolutions due for the nodes in `keys`. */
  ghost function DownloadsDue(nodes: Nodes, keys: set<ArtifactCoordinates>): set<ArtifactCoordinates>
  {
    set x | x in keys && x in nodes && nodes[x].download.NotComputed?
  }

  ghost function AnalysesDue(nodes: Nodes, keys: set<ArtifactCoordinates>): set<DownloadedArtifact>
  {
    set x | x in keys && x in nodes && nodes[x].download.Succeeded? && nodes[x].analysis.NotComputed?
      :: DownloadedArtifact(x, nodes[x].download.result)
  }

  ghost function ResolutionsDue(nodes: Nodes, keys: set<ArtifactCoordinates>): set<ArtifactCoordinates>
  {
    set x | x in keys && x in nodes && nodes[x].resolution.NotComputed?
  }

  /** Each task due for the nodes in `done` was sent, exactly once. */
  ghost predicate SentFor(
    nodes: Nodes, done: set<ArtifactCoordinates>,
    downloads: seq<ArtifactCoordinates>, analyses: seq<DownloadedArtifact>, resolutions: seq<ArtifactCoordinates>)
  {
    && Analyses.Distinct(downloads) && Elements(downloads) == DownloadsDue(nodes, done)
    && Analyses.Distinct(analyses) && Elements(analyses) == AnalysesDue(nodes, done)
    && Analyses.Distinct(resolutions) && Elements(resolutions) == ResolutionsDue(nodes, done)
  }

  lemma DistinctAppend<X>(xs: seq<X>, ys: seq<X>)
    requires Analyses.Distinct(xs) && |ys| <= 1 && Elements(xs) !! Elements(ys)
    ensures Analyses.Distinct(xs + ys)
  {
    if |ys| == 1 {
      assert ys[0] in Elements(ys);
      forall i | 0 <= i < |xs|
        ensures xs[i] != ys[0]
      {
        assert xs[i] in Elements(xs);
      }
    }
  }

  lemma ElementsOfAtMostOne<X>(xs: seq<X>)
    requires |xs| <= 1
    ensures Elements(xs) == if xs == [] then {} else {xs[0]}
  {
    if xs != [] {
      assert xs[0] in Elements(xs);
    }
  }

  lemma QueueNodeStep(
    nodes: Nodes, done: set<ArtifactCoordinates>, x: ArtifactCoordinates,
    downloads: seq<ArtifactCoordinates>, analyses: seq<DownloadedArtifact>, resolutions: seq<ArtifactCoordinates>)
    requires x in nodes && x !in done && SentFor(nodes, done, downloads, analyses, resolutions)
    ensures SentFor(nodes, done + {x},
                    downloads + DownloadTasks(x, nodes[x]),
                    analyses + AnalysisTasks(x, nodes[x]),
                    resolutions + ResolutionTasks(x, nodes[x]))
  {
    var n := nodes[x];
    ElementsAppend(downloads, DownloadTasks(x, n));
    ElementsAppend(analyses, AnalysisTasks(x, n));
    ElementsAppend(resolutions, ResolutionTasks(x, n));
    ElementsOfAtMostOne(DownloadTasks(x, n));
    ElementsOfAtMostOne(AnalysisTasks(x, n));
    ElementsOfAtMostOne(ResolutionTasks(x, n));
    assert DownloadsDue(nodes, done + {x}) == DownloadsDue(nodes, done) + Elements(DownloadTasks(x, n));
    assert AnalysesDue(nodes, done + {x}) == AnalysesDue(nodes, done) + Elements(AnalysisTasks(x, n));
    assert ResolutionsDue(nodes, done + {x}) == ResolutionsDue(nodes, done) + Elements(ResolutionTasks(x, n));
    DistinctAppend(downloads, DownloadTasks(x, n));
    DistinctAppend(analyses, AnalysisTasks(x, n));
    DistinctAppend(resolutions, ResolutionTasks(x, n));
  }

  /** `queueTasks` over the artifact nodes, in the graph's iteration order:
      every node is queued as `QueuedNode` says, and each due download,
      analysis and resolution is sent exactly once. */
  method QueueArtifactTasks(nodes: Nodes)
    returns (queued: Nodes, downloads: seq<ArtifactCoordinates>, analyses: seq<DownloadedArtifact>, resolutions: seq<ArtifactCoordinates>)
    ensures queued.Keys == nodes.Keys && forall x :: x in nodes ==> queued[x] == QueuedNode(nodes[x])
    ensures SentFor(nodes, nodes.Keys, downloads, analyses, resolutions)
  {
    queued, downloads, analyses, resolutions := nodes, [], [], [];
    var remaining := nodes.Keys;
    ghost var done: set<ArtifactCoordinates> := {};
    while remaining != {}
      invariant remaining + done == nodes.Keys && remaining !! done
      invariant queued.Keys == nodes.Keys
      invariant forall x :: x in remaining ==> queued[x] == nodes[x]
      invariant forall x :: x in done ==> queued[x] == QueuedNode(nodes[x])
      invariant SentFor(nodes, done, downloads, analyses, resolutions)
      decreases remaining
    {
      var x :| x in remaining;
      var n := queued[x];
      QueueNodeStep(nodes, done, x, downloads, analyses, resolutions);
      queued := queued[x := QueuedNode(n)];
      downloads := downloads + DownloadTasks(x, n);
      analyses := analyses + AnalysisTasks(x, n);
      resolutions := resolutions + ResolutionTasks(x, n);
      remaining := remaining - {x};
      done := done + {x};
    }
  }

  /** The version resolutions due for the projects in `keys`. */
  ghost function VersionResolutionsDue(projects: ProjectNodes, keys: set<ProjectCoordinates>): set<ProjectCoordinates>
  {
    set p | p in keys && p in projects && projects[p].NotComputed?
  }

  /** `queueTasks` over the project nodes: a version resolution that is not
      computed is queued and its project sent, exactly once; any other is
      left alone. */
  method QueueProjectTasks(projects: ProjectNodes) returns (queued: ProjectNodes, resolutions: seq<ProjectCoordinates>)
    ensures queued.Keys == projects.Keys
    ensures forall p :: p in projects ==>
              queued[p] == (if projects[p].NotComputed? then Queued else projects[p])
    ensures Analyses.Distinct(resolutions) && Elements(resolutions) == VersionResolutionsDue(projects, projects.Keys)
  {
    queued, resolutions := projects, [];
    var remaining := projects.Keys;
    ghost var done: set<ProjectCoordinates> := {};
    while remaining != {}
      invariant remaining + done == projects.Keys && remaining !! done
      invariant queued.Keys == projects.Keys
      invariant forall p :: p in remaining ==> queued[p] == projects[p]
      invariant forall p :: p in done ==> queued[p] == (if projects[p].NotComputed? then Queued else projects[p])
      invariant Analyses.Distinct(resolutions) && Elements(resolutions) == VersionResolutionsDue(projects, done)
      decreases remaining
    {
      var p :| p in remaining;
      var sent := if Id(queued[p]) == NOT_COMPUTED then [p] else [];
      ElementsAppend(resolutions, sent);
      ElementsOfAtMostOne(sent);
      DistinctAppend(resolutions, sent);
      assert VersionResolutionsDue(projects, done + {p}) == VersionResolutionsDue(projects, done) + Elements(sent);
      queued := queued[p := QueueIfNotComputed(queued[p])];
      resolutions := resolutions + sent;
      remaining := remaining - {p};
      done := done + {p};
    }
  }

  // ANSWERS

  /** The nodes after feeding one answer into the graph, and the exception
      that threw, if any. */
  datatype Outcome = Outcome(nodes: Nodes, error: Option<Error>)

  /** A transition of one task of a node. */
  datatype Change =
    | DownloadChange(downloadEvent: Event<string>)
    | AnalysisChange(analysisEvent: Event<seq<Violation>>)
    | ResolutionChange(resolutionEvent: Event<seq<ArtifactCoordinates>>)

  /** The identifier of the task a change is for. */
  function TaskId(n: ArtifactNode, c: Change): Identifier
  {
    match c
    case DownloadChange(_) => Id(n.download)
    case AnalysisChange(_) => Id(n.analysis)
    case ResolutionChange(_) => Id(n.resolution)
  }

  function StepNode(n: ArtifactNode, c: Change): Result<ArtifactNode>
  {
    match c
    case DownloadChange(ev) =>
      (match Step(n.download, ev) case Ok(s) => Ok(n.(download := s)) case Err(e) => Err(e))
    case AnalysisChange(ev) =>
      (match Step(n.analysis, ev) case Ok(s) => Ok(n.(analysis := s)) case Err(e) => Err(e))
    case ResolutionChange(ev) =>
      (match Step(n.resolution, ev) case Ok(s) => Ok(n.(resolution := s)) case Err(e) => Err(e))
  }

  /** `downloadOf`, `analysisOf` or `resolutionOf`, then a transition of the
      task: looking up a missing node throws, and a refused transition
      throws and leaves the task as it was. */
  function Apply(nodes: Nodes, x: ArtifactCoordinates, c: Change): Outcome
  {
    if x !in nodes then Outcome(nodes, Some(IllegalState))
    else match StepNode(nodes[x], c)
      case Ok(n) => Outcome(nodes[x := n], None)
      case Err(e) => Outcome(nodes, Some(e))
  }

  /** Only the addressed task of the node changes. */
  ghost predicate OthersUnchanged(n: ArtifactNode, m: ArtifactNode, c: Change)
  {
    && (c.DownloadChange? || m.download == n.download)
    && (c.AnalysisChange? || m.analysis == n.analysis)
    && (c.ResolutionChange? || m.resolution == n.resolution)
    && m.deepAnalysis == n.deepAnalysis
  }

  /** `getTaskAndStart` on the graph: starting a task succeeds exactly for
      an existing node whose task is not computed or queued; the task is
      then STARTED and nothing else changes, otherwise it throws an
      IllegalStateException and changes nothing. */
  lemma StartMeaning(nodes: Nodes, x: ArtifactCoordinates, c: Change)
    requires c == DownloadChange(StartEvent) || c == AnalysisChange(StartEvent) || c == ResolutionChange(StartEvent)
    ensures var o := Apply(nodes, x, c);
            && (o.error.None? <==> x in nodes && (TaskId(nodes[x], c) == NOT_COMPUTED || TaskId(nodes[x], c) == QUEUED))
            && (o.error.None? ==>
                  && o.nodes.Keys == nodes.Keys
                  && TaskId(o.nodes[x], c) == STARTED
                  && OthersUnchanged(nodes[x], o.nodes[x], c)
                  && forall y :: y in nodes && y != x ==> o.nodes[y] == nodes[y])
            && (o.error.Some? ==> o.nodes == nodes && o.error.value == IllegalState)
  {
  }

  /** `registerArtifact` for each dependee: a missing node is created. */
  function RegisterAll(nodes: Nodes, dependees: seq<ArtifactCoordinates>): Nodes
  {
    map x | x in nodes.Keys + (set d | d in dependees) :: if x in nodes then nodes[x] else FreshNode
  }

  /** `processSuccessOfTask` and `processFailureOfTask` for the download,
      analysis and dependency-resolution channels. */
  function DownloadSucceeded(nodes: Nodes, a: DownloadedArtifact): Outcome
  {
    Apply(nodes, a.artifact, DownloadChange(SucceedEvent(a.path)))
  }

  function DownloadFailed(nodes: Nodes, f: FailedArtifact): Outcome
  {
    Apply(nodes, f.artifact, DownloadChange(FailEvent(f.error)))
  }

  function AnalysisSucceeded(nodes: Nodes, a: AnalyzedArtifact): Outcome
  {
    Apply(nodes, a.artifact, AnalysisChange(SucceedEvent(a.violations)))
  }

  function AnalysisFailed(nodes: Nodes, f: FailedArtifact): Outcome
  {
    Apply(nodes, f.artifact, AnalysisChange(FailEvent(f.error)))
  }

  /** The resolution result goes through `GraphUpdatingDependeeComputation`,
      which registers every dependee as a node before the task succeeds, so
      they stay registered even when the task refuses the result. */
  function ResolutionSucceeded(nodes: Nodes, a: ResolvedArtifact): Outcome
  {
    if a.artifact !in nodes then Outcome(nodes, Some(IllegalState))
    else Apply(RegisterAll(nodes, a.dependees), a.artifact, ResolutionChange(SucceedEvent(a.dependees)))
  }

  function ResolutionFailed(nodes: Nodes, f: FailedArtifact): Outcome
  {
    Apply(nodes, f.artifact, ResolutionChange(FailEvent(f.error)))
  }

  /** Feeding drained answers into `step` in order; the first exception ends
      the walk, and the answers after it are lost with the drained list. */
  function Drain<X>(nodes: Nodes, items: seq<X>, step: (Nodes, X) -> Outcome): Outcome
    decreases |items|
  {
    if items == [] then Outcome(nodes, None)
    else
      var o := step(nodes, items[0]);
      if o.error.Some? then o else Drain(o.nodes, items[1..], step)
  }

  /** The `forEach` over a drained queue. */
  method DrainInto<X>(nodes: Nodes, items: seq<X>, step: (Nodes, X) -> Outcome) returns (o: Outcome)
    ensures o == Drain(nodes, items, step)
  {
    var cur := nodes;
    var i := 0;
    while i < |items|
      invariant 0 <= i <= |items|
      invariant Drain(nodes, items, step) == Drain(cur, items[i..], step)
    {
      assert items[i..][1..] == items[i + 1..];
      var next := step(cur, items[i]);
      if next.error.Some? {
        return next;
      }
      cur := next.nodes;
      i := i + 1;
    }
    return Outcome(cur, None);
  }

  /** The manager's channels are unbounded, so a send always appends; each
      is modelled by its three queues. */
  datatype Queues<T, R, E> = Queues(tasks: seq<T>, results: seq<R>, errors: seq<E>)

  datatype Channels = Channels(
    addProject: Queues<(), ProjectCoordinates, Exception>,
    resolveVersions: Queues<ProjectCoordinates, ResolvedProject, FailedProject>,
    download: Queues<ArtifactCoordinates, DownloadedArtifact, FailedArtifact>,
    analyze: Queues<DownloadedArtifact, AnalyzedArtifact, FailedArtifact>,
    resolveDependencies: Queues<ArtifactCoordinates, ResolvedArtifact, FailedArtifact>,
    outputResults: Queues<DeeplyAnalyzedArtifact, (), ()>)

  const NoChannels := Channels(
    Queues([], [], []), Queues([], [], []), Queues([], [], []),
    Queues([], [], []), Queues([], [], []), Queues([], [], []))

  datatype Processed<T, R> = Processed(outcome: Outcome, queues: Queues<T, R, FailedArtifact>)

  /** `processAnswersFromChannel`: drains the results into `succeed`, then,
      unless that threw, drains the errors into `fail`. */
  function ProcessChannel<T, R>(
    nodes: Nodes, q: Queues<T, R, FailedArtifact>,
    succeed: (Nodes, R) -> Outcome, fail: (Nodes, FailedArtifact) -> Outcome): Processed<T, R>
  {
    var o := Drain(nodes, q.results, succeed);
    if o.error.Some? then Processed(o, q.(results := []))
    else Processed(Drain(o.nodes, q.errors, fail), q.(results := [], errors := []))
  }

  method ProcessAnswersFromChannel<T, R>(
    nodes: Nodes, q: Queues<T, R, FailedArtifact>,
    succeed: (Nodes, R) -> Outcome, fail: (Nodes, FailedArtifact) -> Outcome) returns (p: Processed<T, R>)
    ensures p == ProcessChannel(nodes, q, succeed, fail)
  {
    var o := DrainInto(nodes, q.results, succeed);
    if o.error.Some? {
      return Processed(o, q.(results := []));
    }
    o := DrainInto(o.nodes, q.errors, fail);
    return Processed(o, q.(results := [], errors := []));
  }

  /** The graph's `addProject` for every new project: a project seen for
      the first time gets a node whose version resolution is not computed. */
  function WithProjects(projects: ProjectNodes, added: seq<ProjectCoordinates>): ProjectNodes
  {
    map p | p in projects.Keys + (set q | q in added) :: if p in projects then projects[p] else NotComputed
  }

  /** The `forEach` over the drained new projects. */
  method AddProjects(projects: ProjectNodes, added: seq<ProjectCoordinates>) returns (r: ProjectNodes)
    ensures r == WithProjects(projects, added)
  {
    r := projects;
    var i := 0;
    while i < |added|
      invariant 0 <= i <= |added|
      invariant r == WithProjects(projects, added[..i])
    {
      assert added[..i + 1] == added[..i] + [added[i]];
      if added[i] !in r {
        r := r[added[i] := NotComputed];
      }
      i := i + 1;
    }
    assert added[..i] == added;
  }

  datatype Answered = Answered(projects: ProjectNodes, nodes: Nodes, channels: Channels, error: Option<Error>)

  /** `processAnswers`: the new projects, then the answers of the download,
      analysis and dependency-resolution channels, until one throws. */
  function AnswersProcessed(projects: ProjectNodes, nodes: Nodes, ch: Channels): Answered
  {
    var added := WithProjects(projects, ch.addProject.results);
    var ch0 := ch.(addProject := ch.addProject.(results := [], errors := []));
    var d := ProcessChannel(nodes, ch.download, DownloadSucceeded, DownloadFailed);
    var ch1 := ch0.(download := d.queues);
    if d.outcome.error.Some? then Answered(added, d.outcome.nodes, ch1, d.outcome.error)
    else
      var a := ProcessChannel(d.outcome.nodes, ch.analyze, AnalysisSucceeded, AnalysisFailed);
      var ch2 := ch1.(analyze := a.queues);
      if a.outcome.error.Some? then Answered(added, a.outcome.nodes, ch2, a.outcome.error)
      else
        var r := ProcessChannel(a.outcome.nodes, ch.resolveDependencies, ResolutionSucceeded, ResolutionFailed);
        Answered(added, r.outcome.nodes, ch2.(resolveDependencies := r.queues), r.outcome.error)
  }

  /** The answer a drained result or error leaves in its node's task. */
  predicate DownloadSucceededWith(nodes: Nodes, a: DownloadedArtifact)
  {
    a.artifact in nodes && nodes[a.artifact].download == Succeeded(a.path)
  }

  predicate DownloadFailedWith(nodes: Nodes, f: FailedArtifact)
  {
    f.artifact in nodes && nodes[f.artifact].download == Failed(f.error)
  }

  predicate AnalysisSucceededWith(nodes: Nodes, a: AnalyzedArtifact)
  {
    a.artifact in nodes && nodes[a.artifact].analysis == Succeeded(a.violations)
  }

  predicate AnalysisFailedWith(nodes: Nodes, f: FailedArtifact)
  {
    f.artifact in nodes && nodes[f.artifact].analysis == Failed(f.error)
  }

  predicate ResolutionSucceededWith(nodes: Nodes, a: ResolvedArtifact)
  {
    a.artifact in nodes && nodes[a.artifact].resolution == Succeeded(a.dependees)
  }

  predicate ResolutionFailedWith(nodes: Nodes, f: FailedArtifact)
  {
    f.artifact in nodes && nodes[f.artifact].resolution == Failed(f.error)
  }

  /** A finished task keeps its outcome. */
  ghost predicate Settled<R>(s: State<R>, s': State<R>)
  {
    (s.Failed? || s.Succeeded?) ==> s' == s
  }

  /** `b` is `a` after answers were fed in: no node disappeared, no finished
      task and no deep analysis changed, and a new node has no deep
      analysis. */
  ghost predicate Keeps(a: Nodes, b: Nodes)
  {
    && a.Keys <= b.Keys
    && (forall x :: x in a ==>
          && Settled(a[x].download, b[x].download)
          && Settled(a[x].analysis, b[x].analysis)
          && Settled(a[x].resolution, b[x].resolution)
          && b[x].deepAnalysis == a[x].deepAnalysis)
    && (forall x :: x in b && x !in a ==> b[x].deepAnalysis.NotComputed?)
  }

  lemma KeepsTrans(a: Nodes, b: Nodes, c: Nodes)
    requires Keeps(a, b) && Keeps(b, c)
    ensures Keeps(a, c)
  {
  }

  lemma KeepsDeepStates(a: Nodes, b: Nodes)
    requires Keeps(a, b) && DeepStates(a)
    ensures DeepStates(b)
  {
    forall x | x in b
      ensures DeepState(x, b[x])
    {
      if x in a {
        assert DeepState(x, a[x]);
      }
    }
  }

  /** A transition other than queuing never changes a finished task. */
  predicate NotQueuing(c: Change)
  {
    match c
    case DownloadChange(ev) => !ev.QueueEvent?
    case AnalysisChange(ev) => !ev.QueueEvent?
    case ResolutionChange(ev) => !ev.QueueEvent?
  }

  lemma ApplyKeeps(nodes: Nodes, x: ArtifactCoordinates, c: Change)
    requires NotQueuing(c)
    ensures Keeps(nodes, Apply(nodes, x, c).nodes)
    ensures Registered(nodes) && !(c.ResolutionChange? && c.resolutionEvent.SucceedEvent?) ==>
              Registered(Apply(nodes, x, c).nodes)
  {
    var after := Apply(nodes, x, c).nodes;
    if Registered(nodes) && !(c.ResolutionChange? && c.resolutionEvent.SucceedEvent?) {
      forall y, d | d in Dependees(after, y) ensures d in after {
        assert d in Dependees(nodes, y);
      }
    }
  }

  lemma ResolutionSucceededKeeps(nodes: Nodes, a: ResolvedArtifact)
    ensures Keeps(nodes, ResolutionSucceeded(nodes, a).nodes)
    ensures Registered(nodes) ==> Registered(ResolutionSucceeded(nodes, a).nodes)
  {
    if a.artifact in nodes {
      var registered := RegisterAll(nodes, a.dependees);
      var after := ResolutionSucceeded(nodes, a).nodes;
      ApplyKeeps(registered, a.artifact, ResolutionChange(SucceedEvent(a.dependees)));
      KeepsTrans(nodes, registered, after);
      if Registered(nodes) {
        forall y, d | d in Dependees(after, y) ensures d in after {
          if y == a.artifact && after != registered {
            assert d in a.dependees;
          } else {
            assert d in Dependees(registered, y);
            assert d in Dependees(nodes, y);
          }
        }
      }
    }
  }

  /** When every step keeps the graph's invariants and leaves its own answer
      in place without disturbing an earlier one, a drain that throws
      nothing leaves every answer it fed in in place. */
  lemma {:induction false} DrainSettles<X>(
    nodes: Nodes, items: seq<X>, step: (Nodes, X) -> Outcome, settled: (Nodes, X) -> bool)
    requires forall n, it :: Keeps(n, step(n, it).nodes)
    requires forall n, it :: Registered(n) ==> Registered(step(n, it).nodes)
    requires forall n, it :: step(n, it).error.None? ==> settled(step(n, it).nodes, it)
    requires forall n, n', it :: Keeps(n, n') && settled(n, it) ==> settled(n', it)
    ensures Keeps(nodes, Drain(nodes, items, step).nodes)
    ensures Registered(nodes) ==> Registered(Drain(nodes, items, step).nodes)
    ensures Drain(nodes, items, step).error.None? ==>
              forall i :: 0 <= i < |items| ==> settled(Drain(nodes, items, step).nodes, items[i])
    decreases |items|
  {
    if items != [] {
      var o := step(nodes, items[0]);
      if o.error.None? {
        var last := Drain(o.nodes, items[1..], step);
        DrainSettles(o.nodes, items[1..], step, settled);
        KeepsTrans(nodes, o.nodes, last.nodes);
        if last.error.None? {
          forall i | 0 <= i < |items|
            ensures settled(last.nodes, items[i])
          {
            if i > 0 {
              assert items[i] == items[1..][i - 1];
            }
          }
        }
      }
    }
  }

  lemma DownloadAnswersSettle(nodes: Nodes, results: seq<DownloadedArtifact>, errors: seq<FailedArtifact>)
    ensures var o := Drain(nodes, results, DownloadSucceeded);
            && Keeps(nodes, o.nodes) && (Registered(nodes) ==> Registered(o.nodes))
            && (o.error.None? ==> forall i :: 0 <= i < |results| ==> DownloadSucceededWith(o.nodes, results[i]))
    ensures var o := Drain(nodes, errors, DownloadFailed);
            && Keeps(nodes, o.nodes) && (Registered(nodes) ==> Registered(o.nodes))
            && (o.error.None? ==> forall i :: 0 <= i < |errors| ==> DownloadFailedWith(o.nodes, errors[i]))
  {
    forall n, a ensures Keeps(n, DownloadSucceeded(n, a).nodes) && (Registered(n) ==> Registered(DownloadSucceeded(n, a).nodes)) {
      ApplyKeeps(n, a.artifact, DownloadChange(SucceedEvent(a.path)));
    }
    forall n, f ensures Keeps(n, DownloadFailed(n, f).nodes) && (Registered(n) ==> Registered(DownloadFailed(n, f).nodes)) {
      ApplyKeeps(n, f.artifact, DownloadChange(FailEvent(f.error)));
    }
    DrainSettles(nodes, results, DownloadSucceeded, DownloadSucceededWith);
    DrainSettles(nodes, errors, DownloadFailed, DownloadFailedWith);
  }

  lemma AnalysisAnswersSettle(nodes: Nodes, results: seq<AnalyzedArtifact>, errors: seq<FailedArtifact>)
    ensures var o := Drain(nodes, results, AnalysisSucceeded);
            && Keeps(nodes, o.nodes) && (Registered(nodes) ==> Registered(o.nodes))
            && (o.error.None? ==> forall i :: 0 <= i < |results| ==> AnalysisSucceededWith(o.nodes, results[i]))
    ensures var o := Drain(nodes, errors, AnalysisFailed);
            && Keeps(nodes, o.nodes) && (Registered(nodes) ==> Registered(o.nodes))
            && (o.error.None? ==> forall i :: 0 <= i < |errors| ==> AnalysisFailedWith(o.nodes, errors[i]))
  {
    forall n, a ensures Keeps(n, AnalysisSucceeded(n, a).nodes) && (Registered(n) ==> Registered(AnalysisSucceeded(n, a).nodes)) {
      ApplyKeeps(n, a.artifact, AnalysisChange(SucceedEvent(a.violations)));
    }
    forall n, f ensures Keeps(n, AnalysisFailed(n, f).nodes) && (Registered(n) ==> Registered(AnalysisFailed(n, f).nodes)) {
      ApplyKeeps(n, f.artifact, AnalysisChange(FailEvent(f.error)));
    }
    DrainSettles(nodes, results, AnalysisSucceeded, AnalysisSucceededWith);
    DrainSettles(nodes, errors, AnalysisFailed, AnalysisFailedWith);
  }

  lemma ResolutionAnswersSettle(nodes: Nodes, results: seq<ResolvedArtifact>, errors: seq<FailedArtifact>)
    ensures var o := Drain(nodes, results, ResolutionSucceeded);
            && Keeps(nodes, o.nodes) && (Registered(nodes) ==> Registered(o.nodes))
            && (o.error.None? ==> forall i :: 0 <= i < |results| ==> ResolutionSucceededWith(o.nodes, results[i]))
    ensures var o := Drain(nodes, errors, ResolutionFailed);
            && Keeps(nodes, o.nodes) && (Registered(nodes) ==> Registered(o.nodes))
            && (o.error.None? ==> forall i :: 0 <= i < |errors| ==> ResolutionFailedWith(o.nodes, errors[i]))
  {
    forall n, a ensures Keeps(n, ResolutionSucceeded(n, a).nodes) && (Registered(n) ==> Registered(ResolutionSucceeded(n, a).nodes)) {
      ResolutionSucceededKeeps(n, a);
    }
    forall n, f ensures Keeps(n, ResolutionFailed(n, f).nodes) && (Registered(n) ==> Registered(ResolutionFailed(n, f).nodes)) {
      ApplyKeeps(n, f.artifact, ResolutionChange(FailEvent(f.error)));
    }
    DrainSettles(nodes, results, ResolutionSucceeded, ResolutionSucceededWith);
    DrainSettles(nodes, errors, ResolutionFailed, ResolutionFailedWith);
  }

  /** An answer left in place stays in place. */
  lemma SettledStay(m: Nodes, m': Nodes)
    requires Keeps(m, m')
    ensures forall a :: DownloadSucceededWith(m, a) ==> DownloadSucceededWith(m', a)
    ensures forall f :: DownloadFailedWith(m, f) ==> DownloadFailedWith(m', f)
    ensures forall a :: AnalysisSucceededWith(m, a) ==> AnalysisSucceededWith(m', a)
    ensures forall f :: AnalysisFailedWith(m, f) ==> AnalysisFailedWith(m', f)
    ensures forall a :: ResolutionSucceededWith(m, a) ==> ResolutionSucceededWith(m', a)
    ensures forall f :: ResolutionFailedWith(m, f) ==> ResolutionFailedWith(m', f)
  {
  }

  lemma DownloadChannelSettles(nodes: Nodes, q: Queues<ArtifactCoordinates, DownloadedArtifact, FailedArtifact>)
    ensures var p := ProcessChannel(nodes, q, DownloadSucceeded, DownloadFailed);
            && Keeps(nodes, p.outcome.nodes) && (Registered(nodes) ==> Registered(p.outcome.nodes))
            && (p.outcome.error.None? ==>
                  && (forall i :: 0 <= i < |q.results| ==> DownloadSucceededWith(p.outcome.nodes, q.results[i]))
                  && (forall i :: 0 <= i < |q.errors| ==> DownloadFailedWith(p.outcome.nodes, q.errors[i])))
  {
    var o := Drain(nodes, q.results, DownloadSucceeded);
    DownloadAnswersSettle(nodes, q.results, []);
    if o.error.None? {
      DownloadAnswersSettle(o.nodes, [], q.errors);
      SettledStay(o.nodes, Drain(o.nodes, q.errors, DownloadFailed).nodes);
      KeepsTrans(nodes, o.nodes, Drain(o.nodes, q.errors, DownloadFailed).nodes);
    }
  }

  lemma AnalysisChannelSettles(nodes: Nodes, q: Queues<DownloadedArtifact, AnalyzedArtifact, FailedArtifact>)
    ensures var p := ProcessChannel(nodes, q, AnalysisSucceeded, AnalysisFailed);
            && Keeps(nodes, p.outcome.nodes) && (Registered(nodes) ==> Registered(p.outcome.nodes))
            && (p.outcome.error.None? ==>
                  && (forall i :: 0 <= i < |q.results| ==> AnalysisSucceededWith(p.outcome.nodes, q.results[i]))
                  && (forall i :: 0 <= i < |q.errors| ==> AnalysisFailedWith(p.outcome.nodes, q.errors[i])))
  {
    var o := Drain(nodes, q.results, AnalysisSucceeded);
    AnalysisAnswersSettle(nodes, q.results, []);
    if o.error.None? {
      AnalysisAnswersSettle(o.nodes, [], q.errors);
      SettledStay(o.nodes, Drain(o.nodes, q.errors, AnalysisFailed).nodes);
      KeepsTrans(nodes, o.nodes, Drain(o.nodes, q.errors, AnalysisFailed).nodes);
    }
  }

  lemma ResolutionChannelSettles(nodes: Nodes, q: Queues<ArtifactCoordinates, ResolvedArtifact, FailedArtifact>)
    ensures var p := ProcessChannel(nodes, q, ResolutionSucceeded, ResolutionFailed);
            && Keeps(nodes, p.outcome.nodes) && (Registered(nodes) ==> Registered(p.outcome.nodes))
            && (p.outcome.error.None? ==>
                  && (forall i :: 0 <= i < |q.results| ==> ResolutionSucceededWith(p.outcome.nodes, q.results[i]))
                  && (forall i :: 0 <= i < |q.errors| ==> ResolutionFailedWith(p.outcome.nodes, q.errors[i])))
  {
    var o := Drain(nodes, q.results, ResolutionSucceeded);
    ResolutionAnswersSettle(nodes, q.results, []);
    if o.error.None? {
      ResolutionAnswersSettle(o.nodes, [], q.errors);
      SettledStay(o.nodes, Drain(o.nodes, q.errors, ResolutionFailed).nodes);
      KeepsTrans(nodes, o.nodes, Drain(o.nodes, q.errors, ResolutionFailed).nodes);
    }
  }

  /** `addProject` of the graph for every new project: the known projects
      keep their nodes, and each new one gets a node whose version
      resolution is not computed. */
  lemma WithProjectsMeaning(projects: ProjectNodes, added: seq<ProjectCoordinates>)
    ensures var r := WithProjects(projects, added);
            && r.Keys == projects.Keys + Elements(added)
            && (forall p :: p in projects ==> r[p] == projects[p])
            && (forall p :: p in r && p !in projects ==> r[p].NotComputed?)
  {
    forall q | q in added
      ensures q in Elements(added)
    {
      var i :| 0 <= i < |added| && added[i] == q;
    }
  }

  /** Feeding answers in keeps the graph's invariants and never changes a
      finished task or a deep analysis. */
  lemma AnswersKeep(projects: ProjectNodes, nodes: Nodes, ch: Channels)
    requires Registered(nodes) && DeepStates(nodes)
    ensures var a := AnswersProcessed(projects, nodes, ch);
            Keeps(nodes, a.nodes) && Registered(a.nodes) && DeepStates(a.nodes)
  {
    var a := AnswersProcessed(projects, nodes, ch);
    var d := ProcessChannel(nodes, ch.download, DownloadSucceeded, DownloadFailed);
    DownloadChannelSettles(nodes, ch.download);
    if d.outcome.error.None? {
      var n := ProcessChannel(d.outcome.nodes, ch.analyze, AnalysisSucceeded, AnalysisFailed);
      AnalysisChannelSettles(d.outcome.nodes, ch.analyze);
      KeepsTrans(nodes, d.outcome.nodes, n.outcome.nodes);
      if n.outcome.error.None? {
        ResolutionChannelSettles(n.outcome.nodes, ch.resolveDependencies);
        KeepsTrans(nodes, n.outcome.nodes, a.nodes);
      }
    }
    KeepsDeepStates(nodes, a.nodes);
  }

  /** When nothing throws, every drained result is the outcome of its task
      and every drained error the failure of its task. */
  lemma AnswersSettle(projects: ProjectNodes, nodes: Nodes, ch: Channels)
    ensures var a := AnswersProcessed(projects, nodes, ch);
            a.error.None? ==>
              && (forall i :: 0 <= i < |ch.download.results| ==> DownloadSucceededWith(a.nodes, ch.download.results[i]))
              && (forall i :: 0 <= i < |ch.download.errors| ==> DownloadFailedWith(a.nodes, ch.download.errors[i]))
              && (forall i :: 0 <= i < |ch.analyze.results| ==> AnalysisSucceededWith(a.nodes, ch.analyze.results[i]))
              && (forall i :: 0 <= i < |ch.analyze.errors| ==> AnalysisFailedWith(a.nodes, ch.analyze.errors[i]))
              && (forall i :: 0 <= i < |ch.resolveDependencies.results| ==>
                    ResolutionSucceededWith(a.nodes, ch.resolveDependencies.results[i]))
              && (forall i :: 0 <= i < |ch.resolveDependencies.errors| ==>
                    ResolutionFailedWith(a.nodes, ch.resolveDependencies.errors[i]))
  {
    var a := AnswersProcessed(projects, nodes, ch);
    var d := ProcessChannel(nodes, ch.download, DownloadSucceeded, DownloadFailed);
    if d.outcome.error.None? {
      var n := ProcessChannel(d.outcome.nodes, ch.analyze, AnalysisSucceeded, AnalysisFailed);
      if n.outcome.error.None? && a.error.None? {
        DownloadChannelSettles(nodes, ch.download);
        AnalysisChannelSettles(d.outcome.nodes, ch.analyze);
        ResolutionChannelSettles(n.outcome.nodes, ch.resolveDependencies);
        KeepsTrans(d.outcome.nodes, n.outcome.nodes, a.nodes);
        SettledStay(d.outcome.nodes, a.nodes);
        SettledStay(n.outcome.nodes, a.nodes);
      }
    }
  }

  /** What processing the answers does to the channels: the new projects
      and the answers of every channel it reaches are drained, and when
      nothing throws all of them are; tasks and the answers of the version
      resolution stay where they are. */
  lemma AnswersDrainChannels(projects: ProjectNodes, nodes: Nodes, ch: Channels)
    ensures var a := AnswersProcessed(projects, nodes, ch);
            && a.channels.addProject == Queues(ch.addProject.tasks, [], [])
            && a.channels.resolveVersions == ch.resolveVersions
            && a.channels.outputResults == ch.outputResults
            && a.channels.download.tasks == ch.download.tasks
            && a.channels.analyze.tasks == ch.analyze.tasks
            && a.channels.resolveDependencies.tasks == ch.resolveDependencies.tasks
            && a.channels.download.results == []
            && (a.error.None? ==>
                  && a.channels.download == Queues(ch.download.tasks, [], [])
                  && a.channels.analyze == Queues(ch.analyze.tasks, [], [])
                  && a.channels.resolveDependencies == Queues(ch.resolveDependencies.tasks, [], []))
  {
  }

  // QUEUEING FINISHED ARTIFACTS

  /** Every dependee of a resolved node has a deep analysis. */
  predicate DependeesFinished(nodes: Nodes, x: ArtifactCoordinates)
    requires x in nodes
  {
    && nodes[x].resolution.Succeeded?
    && forall d :: d in nodes[x].resolution.result ==> d in nodes && nodes[d].deepAnalysis.Succeeded?
  }

  /** Ready to finish in the sense finishing can honour: the node is ready
      and so are, finished, all its dependees. */
  predicate ReadyToFinishAfterDependees(nodes: Nodes, x: ArtifactCoordinates)
    requires x in nodes
  {
    ReadyToFinish(nodes[x]) && DependeesFinished(nodes, x)
  }

  lemma ReadyAfterDependeesFinishable(nodes: Nodes, x: ArtifactCoordinates)
    requires x in nodes && ReadyToFinishAfterDependees(nodes, x)
    ensures FinishableFrom(nodes, {}, x)
  {
    forall d | d in Dependees(nodes, x)
      ensures FinishableFrom(nodes, {x}, d)
    {
    }
  }

  /** A node that `readyToFinish` accepts although one of its dependees was
      never analysed: finishing it must read the dependee's analysis result,
      which throws. */
  lemma ReadyButNotFinishable()
    ensures var nodes := map[
              Dependent := ArtifactNode(NotComputed, Succeeded([]), Succeeded([Dependee]), NotComputed),
              Dependee := FreshNode];
            && Registered(nodes) && Ranked(nodes, map[Dependent := 1, Dependee := 0]) && DeepStates(nodes)
            && ReadyToFinish(nodes[Dependent])
            && !ReadyToFinishAfterDependees(nodes, Dependent)
            && !FinishableFrom(nodes, {}, Dependent)
            && ReachesUnreadable(nodes, {}, Dependent)
  {
    var nodes := map[
      Dependent := ArtifactNode(NotComputed, Succeeded([]), Succeeded([Dependee]), NotComputed),
      Dependee := FreshNode];
    assert {} + {Dependent} == {Dependent};
    assert !FinishableFrom(nodes, {Dependent}, Dependee);
    assert ReachesUnreadable(nodes, {Dependent}, Dependee);
    assert Dependee in Dependees(nodes, Dependent);
  }

  /** Two artifacts that depend on each other, both analysed and resolved:
      finishing either never reads a missing result, it recurses around the
      cycle without end. */
  lemma CycleOverflows()
    ensures var nodes := map[
              Dependent := ArtifactNode(NotComputed, Succeeded([]), Succeeded([Dependee]), NotComputed),
              Dependee := ArtifactNode(NotComputed, Succeeded([]), Succeeded([Dependent]), NotComputed)];
            && Registered(nodes) && DeepStates(nodes) && !Acyclic(nodes)
            && ReadyToFinish(nodes[Dependent]) && ReadyToFinish(nodes[Dependee])
            && !FinishableFrom(nodes, {}, Dependent)
            && LoopsBack(nodes, {}, Dependent)
            && !ReachesUnreadable(nodes, {}, Dependent)
  {
    var nodes := map[
      Dependent := ArtifactNode(NotComputed, Succeeded([]), Succeeded([Dependee]), NotComputed),
      Dependee := ArtifactNode(NotComputed, Succeeded([]), Succeeded([Dependent]), NotComputed)];
    assert Dependee in Dependees(nodes, Dependent);
    assert Dependent in Dependees(nodes, Dependee);
    forall rank ensures !Ranked(nodes, rank) {
      RankedEdge(nodes, rank, Dependent, Dependee);
      RankedEdge(nodes, rank, Dependee, Dependent);
    }
    assert {} + {Dependent} == {Dependent};
    assert {Dependent} + {Dependee} == {Dependent, Dependee};
    assert LoopsBack(nodes, {Dependent, Dependee}, Dependent);
    assert LoopsBack(nodes, {Dependent}, Dependee);
    assert !ReachesUnreadable(nodes, {Dependent, Dependee}, Dependent);
    assert !ReachesUnreadable(nodes, {Dependent}, Dependee);
    assert !FinishableFrom(nodes, {Dependent, Dependee}, Dependent);
    assert !FinishableFrom(nodes, {Dependent}, Dependee);
  }

  const Dependent := ArtifactCoordinates("org.example", "dependent", "1.0")
  const Dependee := ArtifactCoordinates("org.example", "dependee", "1.0")

  /** Finishing from the top of the recursion leads back into a cycle only
      when the graph has one. */
  lemma AcyclicNeverLoopsBack(nodes: Nodes, x: ArtifactCoordinates)
    requires Acyclic(nodes)
    ensures !LoopsBack(nodes, {}, x)
  {
    var rank :| Ranked(nodes, rank);
    RankedNeverLoopsBack(nodes, rank, {}, x);
  }

  /** The shape of the graph after finishing: only deep analyses changed,
      and one that had succeeded stayed as it was. */
  ghost predicate OnlyDeepAnalysesAdded(nodes: Nodes, after: Nodes)
  {
    && after.Keys == nodes.Keys
    && (forall x :: x in nodes ==> after[x] == nodes[x].(deepAnalysis := after[x].deepAnalysis))
    && (forall x :: x in nodes && nodes[x].deepAnalysis.Succeeded? ==> after[x] == nodes[x])
  }

  /** Each sent deep analysis is the one now recorded for an artifact that
      was ready to finish, and no artifact is sent twice. */
  ghost predicate SentFinished(nodes: Nodes, after: Nodes, sent: seq<DeeplyAnalyzedArtifact>)
  {
    && (forall i :: 0 <= i < |sent| ==>
          && sent[i].artifact in nodes && sent[i].artifact in after
          && ReadyToFinish(nodes[sent[i].artifact])
          && after[sent[i].artifact].deepAnalysis == Succeeded(sent[i]))
    && Analyses.DistinctArtifacts(sent)
  }

  /** What a walk over the graph has achieved so far: `cur` grew from
      `nodes` by finishing, and what was sent was finished by the walk. */
  ghost predicate FinishWalk(
    nodes: Nodes, cur: Nodes, done: set<ArtifactCoordinates>, sent: seq<DeeplyAnalyzedArtifact>)
  {
    && done <= nodes.Keys
    && Grown(nodes, cur)
    && Registered(cur) && DeepStates(cur)
    && SentFinished(nodes, cur, sent)
    && (forall i :: 0 <= i < |sent| ==> sent[i].artifact in done)
  }

  lemma FinishWalkStart(nodes: Nodes)
    requires Registered(nodes) && DeepStates(nodes)
    ensures FinishWalk(nodes, nodes, {}, [])
  {
  }

  lemma FinishWalkSkip(
    nodes: Nodes, cur: Nodes, done: set<ArtifactCoordinates>, sent: seq<DeeplyAnalyzedArtifact>, x: ArtifactCoordinates)
    requires FinishWalk(nodes, cur, done, sent) && x in nodes
    ensures FinishWalk(nodes, cur, done + {x}, sent)
    ensures ReadyToFinish(nodes[x]) && !ReadyToFinish(cur[x]) ==>
              cur[x].deepAnalysis.Succeeded? && FinishableFrom(nodes, {}, x)
  {
    assert Untouched(nodes, cur, {});
  }

  lemma FinishWalkStep(
    nodes: Nodes, cur: Nodes, next: Nodes, done: set<ArtifactCoordinates>, sent: seq<DeeplyAnalyzedArtifact>,
    x: ArtifactCoordinates, f: DeeplyAnalyzedArtifact)
    requires Registered(nodes) && DeepStates(nodes)
    requires FinishWalk(nodes, cur, done, sent) && x in nodes && x !in done
    requires ReadyToFinish(cur[x]) && Grown(cur, next) && FinishableFrom(cur, {}, x)
    requires next[x].deepAnalysis == Succeeded(f) && f.artifact == x
    ensures FinishWalk(nodes, next, done + {x}, sent + [f])
    ensures FinishableFrom(nodes, {}, x) && ReadyToFinish(nodes[x])
    ensures forall y :: y in cur && cur[y].deepAnalysis.Succeeded? ==> next[y] == cur[y]
  {
    GrownTrans(nodes, cur, next);
    GrownKeeps(cur, next);
    assert Untouched(nodes, cur, {});
    FinishableBack(nodes, cur, {}, x);
  }

  lemma FinishWalkFails(
    nodes: Nodes, cur: Nodes, next: Nodes, done: set<ArtifactCoordinates>, sent: seq<DeeplyAnalyzedArtifact>,
    x: ArtifactCoordinates)
    requires Registered(nodes) && DeepStates(nodes)
    requires FinishWalk(nodes, cur, done, sent) && x in nodes && x !in done
    requires ReadyToFinish(cur[x]) && !FinishableFrom(cur, {}, x) && Grown(cur, next)
    ensures FinishWalk(nodes, next, done, sent)
    ensures ReadyToFinish(nodes[x]) && !FinishableFrom(nodes, {}, x)
  {
    GrownTrans(nodes, cur, next);
    GrownKeeps(cur, next);
    if FinishableFrom(nodes, {}, x) {
      FinishableForward(nodes, cur, {}, x);
    }
  }

  lemma FinishWalkShape(nodes: Nodes, cur: Nodes, done: set<ArtifactCoordinates>, sent: seq<DeeplyAnalyzedArtifact>)
    requires FinishWalk(nodes, cur, done, sent)
    ensures OnlyDeepAnalysesAdded(nodes, cur)
  {
  }

  /** `queueFinishedArtifacts` as written, over the nodes in the graph's
      iteration order: every node that is ready to finish when the walk
      reaches it is finished recursively and its deep analysis sent to
      output. It throws exactly when some node that was ready cannot be
      finished: IllegalState when finishing it reads a result that is not
      there, StackOverflow when it runs around a cycle, which a graph
      without cycles never has. When it does not throw, every node that was
      ready is deeply analysed. */
  method FinishReady(nodes: Nodes)
    returns (r: Result<()>, after: Nodes, sent: seq<DeeplyAnalyzedArtifact>)
    requires Registered(nodes) && DeepStates(nodes)
    ensures OnlyDeepAnalysesAdded(nodes, after) && Registered(after) && DeepStates(after)
    ensures r.Ok? <==> forall x :: x in nodes && ReadyToFinish(nodes[x]) ==> FinishableFrom(nodes, {}, x)
    ensures r.Ok? ==> forall x :: x in nodes && ReadyToFinish(nodes[x]) ==> after[x].deepAnalysis.Succeeded?
    ensures r.Err? ==> r.error == IllegalState || r.error == StackOverflow
    ensures r == Err(IllegalState) ==>
              exists x :: x in nodes && ReadyToFinish(nodes[x]) && ReachesUnreadable(nodes, {}, x)
    ensures r == Err(StackOverflow) ==>
              exists x :: x in nodes && ReadyToFinish(nodes[x]) && LoopsBack(nodes, {}, x)
    ensures r == Err(StackOverflow) ==> !Acyclic(nodes)
    ensures SentFinished(nodes, after, sent)
    ensures r.Ok? ==> forall x :: x in after ==> !ReadyToFinish(after[x])
    ensures r.Ok? ==> Covered(nodes, after, sent)
    ensures r.Ok? ==> ReadySent(nodes, after, sent)
  {
    var cur := nodes;
    sent := [];
    var remaining := nodes.Keys;
    ghost var done: set<ArtifactCoordinates> := {};
    FinishWalkStart(nodes);
    assert Covered(nodes, nodes, []);
    while remaining != {}
      invariant remaining + done == nodes.Keys && remaining !! done
      invariant ReadyWalk(nodes, cur, done, sent)
      decreases remaining
    {
      var x :| x in remaining;
      if ReadyToFinish(cur[x]) {
        var f, next := FinishRecursively(cur, x, {});
        if f.Err? {
          FinishReadyFails(nodes, cur, next, done, sent, x, f.error);
          return Err(f.error), next, sent;
        }
        ReadyWalkStep(nodes, cur, next, done, sent, x, f.value);
        cur, sent := next, sent + [f.value];
      } else {
        ReadyWalkSkip(nodes, cur, done, sent, x);
      }
      remaining := remaining - {x};
      done := done + {x};
    }
    FinishReadyDone(nodes, cur, done, sent);
    return Ok(()), cur, sent;
  }

  /** `queueFinishedArtifacts` with the readiness finishing can honour: a
      node is finished once its dependees are, so it never throws, and every
      node that was ready in this sense is deeply analysed afterwards. */
  method FinishReadyAfterDependees(nodes: Nodes)
    returns (after: Nodes, sent: seq<DeeplyAnalyzedArtifact>)
    requires Registered(nodes) && DeepStates(nodes)
    ensures OnlyDeepAnalysesAdded(nodes, after) && Registered(after) && DeepStates(after)
    ensures forall x :: x in nodes && ReadyToFinishAfterDependees(nodes, x) ==> after[x].deepAnalysis.Succeeded?
    ensures SentFinished(nodes, after, sent)
    ensures forall x :: x in nodes && after[x] != nodes[x] ==> x in Analyses.ArtifactsOf(sent)
    ensures forall x :: x in nodes && ReadyToFinishAfterDependees(nodes, x) ==> x in Analyses.ArtifactsOf(sent)
  {
    var cur := nodes;
    sent := [];
    var remaining := nodes.Keys;
    ghost var done: set<ArtifactCoordinates> := {};
    FinishWalkStart(nodes);
    while remaining != {}
      invariant remaining + done == nodes.Keys && remaining !! done
      invariant DependeesWalk(nodes, cur, done, sent)
      decreases remaining
    {
      var x :| x in remaining;
      if ReadyToFinishAfterDependees(cur, x) {
        ReadyAfterDependeesFinishable(cur, x);
        var f, next := FinishRecursively(cur, x, {});
        DependeesWalkStep(nodes, cur, next, done, sent, x, f.value);
        cur, sent := next, sent + [f.value];
      } else {
        DependeesWalkSkip(nodes, cur, done, sent, x);
      }
      remaining := remaining - {x};
      done := done + {x};
    }
    FinishWalkShape(nodes, cur, done, sent);
    SentAllReady(nodes, cur, sent);
    return cur, sent;
  }

  /** What the corrected walk has achieved so far: each node it passed that
      was ready once its dependees were finished is finished, and each node
      it finished was sent. */
  ghost predicate DependeesWalk(nodes: Nodes, cur: Nodes, done: set<ArtifactCoordinates>, sent: seq<DeeplyAnalyzedArtifact>)
  {
    && FinishWalk(nodes, cur, done, sent)
    && (forall y :: y in done && ReadyToFinishAfterDependees(nodes, y) ==> cur[y].deepAnalysis.Succeeded?)
    && (forall y :: y in nodes && cur[y] != nodes[y] ==> y in Analyses.ArtifactsOf(sent))
  }

  lemma DependeesWalkStep(
    nodes: Nodes, cur: Nodes, next: Nodes, done: set<ArtifactCoordinates>, sent: seq<DeeplyAnalyzedArtifact>,
    x: ArtifactCoordinates, f: DeeplyAnalyzedArtifact)
    requires Registered(nodes) && DeepStates(nodes)
    requires DependeesWalk(nodes, cur, done, sent) && x in nodes && x !in done
    requires ReadyToFinish(cur[x]) && Grown(cur, next) && FinishableFrom(cur, {}, x)
    requires next[x].deepAnalysis == Succeeded(f) && f.artifact == x
    requires forall y :: y in cur && y != x ==> next[y] == cur[y]
    ensures DependeesWalk(nodes, next, done + {x}, sent + [f])
  {
    FinishWalkStep(nodes, cur, next, done, sent, x, f);
    SentOneMore(nodes, cur, next, sent, f);
  }

  lemma DependeesWalkSkip(
    nodes: Nodes, cur: Nodes, done: set<ArtifactCoordinates>, sent: seq<DeeplyAnalyzedArtifact>, x: ArtifactCoordinates)
    requires DependeesWalk(nodes, cur, done, sent) && x in nodes && !ReadyToFinishAfterDependees(cur, x)
    ensures DependeesWalk(nodes, cur, done + {x}, sent)
  {
    FinishWalkSkip(nodes, cur, done, sent, x);
    if ReadyToFinishAfterDependees(nodes, x) {
      AfterDependeesSkipped(nodes, cur, x);
    }
  }

  /** What the walk of `queueFinishedArtifacts` has achieved so far: each
      node it passed that was ready is finished, and all it finished lies in
      the trees of what it sent. */
  ghost predicate ReadyWalk(nodes: Nodes, cur: Nodes, done: set<ArtifactCoordinates>, sent: seq<DeeplyAnalyzedArtifact>)
  {
    && FinishWalk(nodes, cur, done, sent)
    && (forall y :: y in done && ReadyToFinish(nodes[y]) ==>
          cur[y].deepAnalysis.Succeeded? && FinishableFrom(nodes, {}, y))
    && Covered(nodes, cur, sent)
  }

  lemma ReadyWalkStep(
    nodes: Nodes, cur: Nodes, next: Nodes, done: set<ArtifactCoordinates>, sent: seq<DeeplyAnalyzedArtifact>,
    x: ArtifactCoordinates, f: DeeplyAnalyzedArtifact)
    requires Registered(nodes) && DeepStates(nodes)
    requires ReadyWalk(nodes, cur, done, sent) && x in nodes && x !in done
    requires ReadyToFinish(cur[x]) && Grown(cur, next) && FinishableFrom(cur, {}, x)
    requires next[x].deepAnalysis == Succeeded(f) && f.artifact == x && Covered(cur, next, [f])
    ensures ReadyWalk(nodes, next, done + {x}, sent + [f])
  {
    FinishWalkStep(nodes, cur, next, done, sent, x, f);
    CoveredInTurn(nodes, cur, next, sent, [f]);
  }

  lemma ReadyWalkSkip(
    nodes: Nodes, cur: Nodes, done: set<ArtifactCoordinates>, sent: seq<DeeplyAnalyzedArtifact>, x: ArtifactCoordinates)
    requires ReadyWalk(nodes, cur, done, sent) && x in nodes && !ReadyToFinish(cur[x])
    ensures ReadyWalk(nodes, cur, done + {x}, sent)
  {
    FinishWalkSkip(nodes, cur, done, sent, x);
  }

  /** The walk reached every node and finished each one that was ready;
      what it leaves behind is what `FinishReady` promises on success. */
  lemma FinishReadyDone(nodes: Nodes, cur: Nodes, done: set<ArtifactCoordinates>, sent: seq<DeeplyAnalyzedArtifact>)
    requires done == nodes.Keys && ReadyWalk(nodes, cur, done, sent)
    ensures OnlyDeepAnalysesAdded(nodes, cur) && Registered(cur) && DeepStates(cur)
    ensures forall x :: x in nodes && ReadyToFinish(nodes[x]) ==> FinishableFrom(nodes, {}, x)
    ensures forall x :: x in nodes && ReadyToFinish(nodes[x]) ==> cur[x].deepAnalysis.Succeeded?
    ensures forall x :: x in cur ==> !ReadyToFinish(cur[x])
    ensures SentFinished(nodes, cur, sent) && ReadySent(nodes, cur, sent)
  {
    FinishWalkShape(nodes, cur, done, sent);
    CoveredReady(nodes, cur, sent);
    NoneReadyAfter(nodes, cur);
  }

  /** The walk stops at the first ready node it cannot finish; what it
      leaves behind is what `FinishReady` promises for that error. */
  lemma FinishReadyFails(
    nodes: Nodes, cur: Nodes, next: Nodes, done: set<ArtifactCoordinates>, sent: seq<DeeplyAnalyzedArtifact>,
    x: ArtifactCoordinates, e: Error)
    requires Registered(nodes) && DeepStates(nodes)
    requires ReadyWalk(nodes, cur, done, sent) && x in nodes && x !in done
    requires ReadyToFinish(cur[x]) && !FinishableFrom(cur, {}, x) && Grown(cur, next)
    requires e == IllegalState || e == StackOverflow
    requires e == StackOverflow ==> LoopsBack(cur, {}, x)
    requires e == IllegalState ==> ReachesUnreadable(cur, {}, x)
    ensures OnlyDeepAnalysesAdded(nodes, next) && Registered(next) && DeepStates(next)
    ensures !forall y :: y in nodes && ReadyToFinish(nodes[y]) ==> FinishableFrom(nodes, {}, y)
    ensures e == IllegalState ==> exists y :: y in nodes && ReadyToFinish(nodes[y]) && ReachesUnreadable(nodes, {}, y)
    ensures e == StackOverflow ==> exists y :: y in nodes && ReadyToFinish(nodes[y]) && LoopsBack(nodes, {}, y)
    ensures e == StackOverflow ==> !Acyclic(nodes)
    ensures SentFinished(nodes, next, sent)
  {
    FinishWalkFails(nodes, cur, next, done, sent, x);
    if e == StackOverflow {
      LoopsBackBack(nodes, cur, {}, x);
      if Acyclic(nodes) {
        AcyclicNeverLoopsBack(nodes, x);
      }
    } else {
      ReachesUnreadableBack(nodes, cur, {}, x);
    }
    FinishWalkShape(nodes, next, done, sent);
  }

  /** Finishing a node whose dependees are finished changes that node
      alone, which is then sent. */
  lemma SentOneMore(nodes: Nodes, cur: Nodes, next: Nodes, sent: seq<DeeplyAnalyzedArtifact>, f: DeeplyAnalyzedArtifact)
    requires nodes.Keys == cur.Keys == next.Keys && f.artifact in cur
    requires forall y :: y in nodes && cur[y] != nodes[y] ==> y in Analyses.ArtifactsOf(sent)
    requires forall y :: y in cur && y != f.artifact ==> next[y] == cur[y]
    ensures forall y :: y in nodes && next[y] != nodes[y] ==> y in Analyses.ArtifactsOf(sent + [f])
  {
    Analyses.ArtifactsOfConcat(sent, [f]);
    assert [f][0].artifact == f.artifact;
    assert f.artifact in Analyses.ArtifactsOf([f]);
  }

  /** A node ready once its dependees are finished is finished by the
      walk, so it was sent. */
  lemma SentAllReady(nodes: Nodes, after: Nodes, sent: seq<DeeplyAnalyzedArtifact>)
    requires nodes.Keys == after.Keys
    requires forall x :: x in nodes && ReadyToFinishAfterDependees(nodes, x) ==> after[x].deepAnalysis.Succeeded?
    requires forall x :: x in nodes && after[x] != nodes[x] ==> x in Analyses.ArtifactsOf(sent)
    ensures forall x :: x in nodes && ReadyToFinishAfterDependees(nodes, x) ==> x in Analyses.ArtifactsOf(sent)
  {
  }

  /** The deep analysis of every node that was ready lies in the dependee
      tree of a sent artifact. */
  ghost predicate ReadySent(nodes: Nodes, after: Nodes, sent: seq<DeeplyAnalyzedArtifact>)
  {
    forall x :: x in nodes && ReadyToFinish(nodes[x]) ==>
      x in after && after[x].deepAnalysis.Succeeded? &&
      exists i :: 0 <= i < |sent| && InTree(sent[i], after[x].deepAnalysis.result)
  }

  /** Once every node that was ready is deeply analysed, none is ready. */
  lemma NoneReadyAfter(nodes: Nodes, after: Nodes)
    requires OnlyDeepAnalysesAdded(nodes, after)
    requires forall x :: x in nodes && ReadyToFinish(nodes[x]) ==> after[x].deepAnalysis.Succeeded?
    ensures forall x :: x in after ==> !ReadyToFinish(after[x])
  {
    forall x | x in after ensures !ReadyToFinish(after[x]) {
      assert x in nodes;
    }
  }

  /** A node that was ready and is deeply analysed now was finished by the
      walk, so its deep analysis lies in the tree of a sent one. */
  lemma CoveredReady(nodes: Nodes, after: Nodes, sent: seq<DeeplyAnalyzedArtifact>)
    requires nodes.Keys == after.Keys && Covered(nodes, after, sent)
    requires forall x :: x in nodes && ReadyToFinish(nodes[x]) ==> after[x].deepAnalysis.Succeeded?
    ensures ReadySent(nodes, after, sent)
  {
    forall x | x in nodes && ReadyToFinish(nodes[x])
      ensures exists i :: 0 <= i < |sent| && InTree(sent[i], after[x].deepAnalysis.result)
    {
      assert after[x] != nodes[x];
    }
  }

  /** A node that was ready once its dependees were finished, and no longer
      is, has been finished meanwhile. */
  lemma AfterDependeesSkipped(nodes: Nodes, cur: Nodes, x: ArtifactCoordinates)
    requires Grown(nodes, cur) && x in nodes
    requires ReadyToFinishAfterDependees(nodes, x) && !ReadyToFinishAfterDependees(cur, x)
    ensures cur[x].deepAnalysis.Succeeded?
  {
    if !cur[x].deepAnalysis.Succeeded? {
      assert cur[x] == nodes[x];
      var ds := nodes[x].resolution.result;
      forall d | d in ds
        ensures d in cur && cur[d].deepAnalysis.Succeeded?
      {
        assert nodes[d].deepAnalysis.Succeeded?;
      }
      assert ReadyToFinishAfterDependees(cur, x);
      assert false;
    }
  }

  // THE MANAGER

  /** A queue after some tasks were sent to it: the old tasks stay in front. */
  ghost predicate Appended<T>(before: seq<T>, after: seq<T>)
  {
    |before| <= |after| && after[..|before|] == before
  }

  /** The bookkeeping of the manager's own thread. */
  class Bookkeeping {
    var running: bool
    var aborted: bool

    constructor ()
      ensures !running && !aborted
    {
      running, aborted := false, false;
    }

    /** `startRunning`: refuses a second start. */
    method StartRunning() returns (r: Result<()>)
      modifies this
      ensures old(running) ==> r == Err(IllegalState) && running && aborted == old(aborted)
      ensures !old(running) ==> r.Ok? && running && aborted == old(aborted)
    {
      if running {
        return Err(IllegalState);
      }
      running := true;
      return Ok(());
    }

    /** `stopRunning`: both flags are reset, so the manager can run again. */
    method StopRunning()
      modifies this
      ensures !running && !aborted
    {
      running, aborted := false, false;
    }

    /** `abort`: the run loop ends after its current round. */
    method Abort()
      modifies this
      ensures aborted && running == old(running)
    {
      aborted := true;
    }
  }

  /** `AnalysisTaskManager`: the analysis graph of projects and artifacts,
      the six channels to the workers, and the bookkeeping. */
  class TaskManager {
    var projects: ProjectNodes
    var artifacts: Nodes
    var channels: Channels
    const bookkeeping: Bookkeeping

    /** Every dependee of a resolved artifact is in the graph, and every
        deep analysis agrees with the node's own analysis and resolution. */
    ghost predicate Valid()
      reads this
    {
      Registered(artifacts) && DeepStates(artifacts)
    }

    /** The manager over an empty graph with six empty channels. */
    constructor ()
      ensures Valid()
      ensures projects == map[] && artifacts == map[] && channels == NoChannels
      ensures fresh(bookkeeping) && !bookkeeping.running && !bookkeeping.aborted
    {
      projects, artifacts, channels := map[], map[], NoChannels;
      bookkeeping := new Bookkeeping();
    }

    /** `stopManagingQueue`. */
    method StopManagingQueue()
      modifies bookkeeping
      ensures bookkeeping.aborted && bookkeeping.running == old(bookkeeping.running)
    {
      bookkeeping.Abort();
    }

    /** `queueTasks`: every task that is not computed is queued and its
        coordinates (for an analysis, the downloaded jar) sent once to its
        channel, behind the tasks already waiting there. */
    method QueueTasks()
      requires Valid()
      modifies this
      ensures Valid()
      ensures projects.Keys == old(projects).Keys
      ensures forall p :: p in old(projects) ==>
                projects[p] == (if old(projects)[p].NotComputed? then Queued else old(projects)[p])
      ensures artifacts.Keys == old(artifacts).Keys
      ensures forall x :: x in old(artifacts) ==> artifacts[x] == QueuedNode(old(artifacts)[x])
      ensures Appended(old(channels).resolveVersions.tasks, channels.resolveVersions.tasks)
      ensures Appended(old(channels).download.tasks, channels.download.tasks)
      ensures Appended(old(channels).analyze.tasks, channels.analyze.tasks)
      ensures Appended(old(channels).resolveDependencies.tasks, channels.resolveDependencies.tasks)
      ensures var vs := channels.resolveVersions.tasks[|old(channels).resolveVersions.tasks|..];
              Analyses.Distinct(vs) && Elements(vs) == VersionResolutionsDue(old(projects), old(projects).Keys)
      ensures SentFor(old(artifacts), old(artifacts).Keys,
                channels.download.tasks[|old(channels).download.tasks|..],
                channels.analyze.tasks[|old(channels).analyze.tasks|..],
                channels.resolveDependencies.tasks[|old(channels).resolveDependencies.tasks|..])
      ensures channels == old(channels).(
                resolveVersions := channels.resolveVersions, download := channels.download,
                analyze := channels.analyze, resolveDependencies := channels.resolveDependencies)
      ensures channels.resolveVersions == old(channels).resolveVersions.(tasks := channels.resolveVersions.tasks)
      ensures channels.download == old(channels).download.(tasks := channels.download.tasks)
      ensures channels.analyze == old(channels).analyze.(tasks := channels.analyze.tasks)
      ensures channels.resolveDependencies == old(channels).resolveDependencies.(tasks := channels.resolveDependencies.tasks)
    {
      var queuedProjects, versions := QueueProjectTasks(projects);
      var queued, downloads, analyses, resolutions := QueueArtifactTasks(artifacts);
      QueuedKeepsValid(artifacts, queued);
      var ch := channels;
      projects, artifacts := queuedProjects, queued;
      channels := ch.(
        resolveVersions := ch.resolveVersions.(tasks := ch.resolveVersions.tasks + versions),
        download := ch.download.(tasks := ch.download.tasks + downloads),
        analyze := ch.analyze.(tasks := ch.analyze.tasks + analyses),
        resolveDependencies := ch.resolveDependencies.(tasks := ch.resolveDependencies.tasks + resolutions));
      assert channels.resolveVersions.tasks[|ch.resolveVersions.tasks|..] == versions;
      assert channels.download.tasks[|ch.download.tasks|..] == downloads;
      assert channels.analyze.tasks[|ch.analyze.tasks|..] == analyses;
      assert channels.resolveDependencies.tasks[|ch.resolveDependencies.tasks|..] == resolutions;
    }

    /** `processAnswers`: the state becomes what `AnswersProcessed`
        describes, and the call throws exactly when a drained answer was
        refused by its task. */
    method ProcessAnswers() returns (r: Result<()>)
      requires Valid()
      modifies this
      ensures Valid()
      ensures var a := AnswersProcessed(old(projects), old(artifacts), old(channels));
              && projects == a.projects && artifacts == a.nodes && channels == a.channels
              && (r.Ok? <==> a.error.None?)
              && (r.Err? ==> a.error == Some(r.error))
    {
      ghost var a := AnswersProcessed(projects, artifacts, channels);
      AnswersKeep(projects, artifacts, channels);
      var ch := channels;
      projects := AddProjects(projects, ch.addProject.results);
      var ch0 := ch.(addProject := ch.addProject.(results := [], errors := []));
      var d := ProcessAnswersFromChannel(artifacts, ch.download, DownloadSucceeded, DownloadFailed);
      var ch1 := ch0.(download := d.queues);
      artifacts, channels := d.outcome.nodes, ch1;
      if d.outcome.error.Some? {
        return Err(d.outcome.error.value);
      }
      var an := ProcessAnswersFromChannel(artifacts, ch.analyze, AnalysisSucceeded, AnalysisFailed);
      var ch2 := ch1.(analyze := an.queues);
      artifacts, channels := an.outcome.nodes, ch2;
      if an.outcome.error.Some? {
        return Err(an.outcome.error.value);
      }
      var res := ProcessAnswersFromChannel(artifacts, ch.resolveDependencies, ResolutionSucceeded, ResolutionFailed);
      artifacts, channels := res.outcome.nodes, ch2.(resolveDependencies := res.queues);
      if res.outcome.error.Some? {
        return Err(res.outcome.error.value);
      }
      return Ok(());
    }

    /** `queueFinishedArtifacts` as written: throws when a node that is
        ready cannot be finished, IllegalState for a missing result and
        StackOverflow for a cycle, which a graph without cycles never has;
        otherwise no node is left ready, and each deep analysis sent to
        output is the one now recorded for an artifact that was ready. */
    method QueueFinishedArtifacts() returns (r: Result<()>)
      requires Valid()
      modifies this
      ensures Valid()
      ensures projects == old(projects)
      ensures OnlyDeepAnalysesAdded(old(artifacts), artifacts)
      ensures r.Ok? ==> forall x :: x in artifacts ==> !ReadyToFinish(artifacts[x])
      ensures r.Err? ==> r.error == IllegalState || r.error == StackOverflow
      ensures r == Err(StackOverflow) ==> !Acyclic(old(artifacts))
      ensures Appended(old(channels).outputResults.tasks, channels.outputResults.tasks)
      ensures SentFinished(old(artifacts), artifacts, channels.outputResults.tasks[|old(channels).outputResults.tasks|..])
      ensures r.Ok? ==> Covered(old(artifacts), artifacts, channels.outputResults.tasks[|old(channels).outputResults.tasks|..])
      ensures r.Ok? ==> ReadySent(old(artifacts), artifacts, channels.outputResults.tasks[|old(channels).outputResults.tasks|..])
      ensures channels == old(channels).(outputResults := old(channels).outputResults.(tasks := channels.outputResults.tasks))
    {
      var ch := channels;
      var after, sent;
      r, after, sent := FinishReady(artifacts);
      artifacts := after;
      channels := ch.(outputResults := ch.outputResults.(tasks := ch.outputResults.tasks + sent));
      assert channels.outputResults.tasks[|ch.outputResults.tasks|..] == sent;
    }

    /** `queueFinishedArtifacts` with the corrected readiness: it never
        throws, and every node ready once its dependees are finished is
        deeply analysed and sent. */
    method QueueFinishedArtifactsAfterDependees()
      requires Valid()
      modifies this
      ensures Valid()
      ensures projects == old(projects)
      ensures OnlyDeepAnalysesAdded(old(artifacts), artifacts)
      ensures forall x :: x in old(artifacts) && ReadyToFinishAfterDependees(old(artifacts), x) ==>
                artifacts[x].deepAnalysis.Succeeded?
      ensures Appended(old(channels).outputResults.tasks, channels.outputResults.tasks)
      ensures SentFinished(old(artifacts), artifacts, channels.outputResults.tasks[|old(channels).outputResults.tasks|..])
      ensures forall x :: x in old(artifacts) && ReadyToFinishAfterDependees(old(artifacts), x) ==>
                x in Analyses.ArtifactsOf(channels.outputResults.tasks[|old(channels).outputResults.tasks|..])
      ensures channels == old(channels).(outputResults := old(channels).outputResults.(tasks := channels.outputResults.tasks))
    {
      var ch := channels;
      var after, sent := FinishReadyAfterDependees(artifacts);
      artifacts := after;
      channels := ch.(outputResults := ch.outputResults.(tasks := ch.outputResults.tasks + sent));
      assert channels.outputResults.tasks[|ch.outputResults.tasks|..] == sent;
    }

    /** `getNextToResolveVersions`: takes the next project from its channel
        and starts its version resolution. */
    method GetNextToResolveVersions() returns (r: Result<ProjectCoordinates>)
      requires channels.resolveVersions.tasks != []
      modifies this
      ensures var p := old(channels).resolveVersions.tasks[0];
              && (r.Ok? <==> p in old(projects) && Start(old(projects)[p]).Ok?)
              && (r.Ok? ==> r.value == p && projects == old(projects)[p := Started])
              && (r.Err? ==> r.error == IllegalState && projects == old(projects))
      ensures artifacts == old(artifacts)
      ensures channels == old(channels).(resolveVersions := old(channels).resolveVersions.(tasks := old(channels).resolveVersions.tasks[1..]))
    {
      var p := channels.resolveVersions.tasks[0];
      channels := channels.(resolveVersions := channels.resolveVersions.(tasks := channels.resolveVersions.tasks[1..]));
      if p !in projects {
        return Err(IllegalState);
      }
      var started := Start(projects[p]);
      if started.Err? {
        return Err(started.error);
      }
      projects := projects[p := started.value];
      return Ok(p);
    }

    /** `getNextToDownload`: takes the next artifact from its channel and
        starts its download. */
    method GetNextToDownload() returns (r: Result<ArtifactCoordinates>)
      requires Valid() && channels.download.tasks != []
      modifies this
      ensures Valid()
      ensures var o := Apply(old(artifacts), old(channels).download.tasks[0], DownloadChange(StartEvent));
              && artifacts == o.nodes
              && (r.Ok? <==> o.error.None?)
              && (r.Ok? ==> r.value == old(channels).download.tasks[0])
              && (r.Err? ==> o.error == Some(r.error))
      ensures projects == old(projects)
      ensures channels == old(channels).(download := old(channels).download.(tasks := old(channels).download.tasks[1..]))
    {
      var x := channels.download.tasks[0];
      channels := channels.(download := channels.download.(tasks := channels.download.tasks[1..]));
      r := StartTask(x, DownloadChange(StartEvent));
    }

    /** `getNextToAnalyze`: takes the next downloaded jar from its channel
        and starts its analysis. */
    method GetNextToAnalyze() returns (r: Result<DownloadedArtifact>)
      requires Valid() && channels.analyze.tasks != []
      modifies this
      ensures Valid()
      ensures var o := Apply(old(artifacts), old(channels).analyze.tasks[0].artifact, AnalysisChange(StartEvent));
              && artifacts == o.nodes
              && (r.Ok? <==> o.error.None?)
              && (r.Ok? ==> r.value == old(channels).analyze.tasks[0])
              && (r.Err? ==> o.error == Some(r.error))
      ensures projects == old(projects)
      ensures channels == old(channels).(analyze := old(channels).analyze.(tasks := old(channels).analyze.tasks[1..]))
    {
      var a := channels.analyze.tasks[0];
      channels := channels.(analyze := channels.analyze.(tasks := channels.analyze.tasks[1..]));
      var started := StartTask(a.artifact, AnalysisChange(StartEvent));
      r := if started.Ok? then Ok(a) else Err(started.error);
    }

    /** `getNextToResolveDependencies`: takes the next artifact from its
        channel and starts its dependency resolution. */
    method GetNextToResolveDependencies() returns (r: Result<ArtifactCoordinates>)
      requires Valid() && channels.resolveDependencies.tasks != []
      modifies this
      ensures Valid()
      ensures var o := Apply(old(artifacts), old(channels).resolveDependencies.tasks[0], ResolutionChange(StartEvent));
              && artifacts == o.nodes
              && (r.Ok? <==> o.error.None?)
              && (r.Ok? ==> r.value == old(channels).resolveDependencies.tasks[0])
              && (r.Err? ==> o.error == Some(r.error))
      ensures projects == old(projects)
      ensures channels == old(channels).(resolveDependencies := old(channels).resolveDependencies.(tasks := old(channels).resolveDependencies.tasks[1..]))
    {
      var x := channels.resolveDependencies.tasks[0];
      channels := channels.(resolveDependencies := channels.resolveDependencies.(tasks := channels.resolveDependencies.tasks[1..]));
      r := StartTask(x, ResolutionChange(StartEvent));
    }

    /** `getNextToOutput`: takes the next deeply analysed artifact from its
        channel. The graph has no output task to start. */
    method GetNextToOutput() returns (r: DeeplyAnalyzedArtifact)
      requires channels.outputResults.tasks != []
      modifies this
      ensures r == old(channels).outputResults.tasks[0]
      ensures artifacts == old(artifacts) && projects == old(projects)
      ensures channels == old(channels).(outputResults := old(channels).outputResults.(tasks := old(channels).outputResults.tasks[1..]))
    {
      r := channels.outputResults.tasks[0];
      channels := channels.(outputResults := channels.outputResults.(tasks := channels.outputResults.tasks[1..]));
    }

    /** `getTaskAndStart` after the task was taken: the task of `x` is
        started, or the call throws and nothing changes. */
    method StartTask(x: ArtifactCoordinates, c: Change) returns (r: Result<ArtifactCoordinates>)
      requires Valid() && NotQueuing(c) && !(c.ResolutionChange? && c.resolutionEvent.SucceedEvent?)
      modifies this
      ensures Valid()
      ensures var o := Apply(old(artifacts), x, c);
              && artifacts == o.nodes
              && (r.Ok? <==> o.error.None?)
              && (r.Ok? ==> r.value == x)
              && (r.Err? ==> o.error == Some(r.error))
      ensures projects == old(projects) && channels == old(channels)
    {
      ApplyKeeps(artifacts, x, c);
      KeepsDeepStates(artifacts, Apply(artifacts, x, c).nodes);
      var o := Apply(artifacts, x, c);
      artifacts := o.nodes;
      r := if o.error.None? then Ok(x) else Err(o.error.value);
    }

    /** `addProject` and `findingProjectFailed`: the answer waits in its
        channel until the next `processAnswers`. */
    method AddProject(p: ProjectCoordinates)
      modifies this
      ensures channels == old(channels).(addProject := old(channels).addProject.(results := old(channels).addProject.results + [p]))
      ensures projects == old(projects) && artifacts == old(artifacts)
    {
      channels := channels.(addProject := channels.addProject.(results := channels.addProject.results + [p]));
    }

    method FindingProjectFailed(e: Exception)
      modifies this
      ensures channels == old(channels).(addProject := old(channels).addProject.(errors := old(channels).addProject.errors + [e]))
      ensures projects == old(projects) && artifacts == old(artifacts)
    {
      channels := channels.(addProject := channels.addProject.(errors := channels.addProject.errors + [e]));
    }

    /** `resolvedVersions` and `versionResolutionFailed`. */
    method ResolvedVersions(p: ResolvedProject)
      modifies this
      ensures channels == old(channels).(resolveVersions := old(channels).resolveVersions.(results := old(channels).resolveVersions.results + [p]))
      ensures projects == old(projects) && artifacts == old(artifacts)
    {
      channels := channels.(resolveVersions := channels.resolveVersions.(results := channels.resolveVersions.results + [p]));
    }

    method VersionResolutionFailed(p: FailedProject)
      modifies this
      ensures channels == old(channels).(resolveVersions := old(channels).resolveVersions.(errors := old(channels).resolveVersions.errors + [p]))
      ensures projects == old(projects) && artifacts == old(artifacts)
    {
      channels := channels.(resolveVersions := channels.resolveVersions.(errors := channels.resolveVersions.errors + [p]));
    }

    /** `downloaded` and `downloadFailed`. */
    method Downloaded(a: DownloadedArtifact)
      modifies this
      ensures channels == old(channels).(download := old(channels).download.(results := old(channels).download.results + [a]))
      ensures projects == old(projects) && artifacts == old(artifacts)
    {
      channels := channels.(download := channels.download.(results := channels.download.results + [a]));
    }

    method DownloadFailedAnswer(f: FailedArtifact)
      modifies this
      ensures channels == old(channels).(download := old(channels).download.(errors := old(channels).download.errors + [f]))
      ensures projects == old(projects) && artifacts == old(artifacts)
    {
      channels := channels.(download := channels.download.(errors := channels.download.errors + [f]));
    }

    /** `analyzed` and `analysisFailed`. */
    method Analyzed(a: AnalyzedArtifact)
      modifies this
      ensures channels == old(channels).(analyze := old(channels).analyze.(results := old(channels).analyze.results + [a]))
      ensures projects == old(projects) && artifacts == old(artifacts)
    {
      channels := channels.(analyze := channels.analyze.(results := channels.analyze.results + [a]));
    }

    method AnalysisFailedAnswer(f: FailedArtifact)
      modifies this
      ensures channels == old(channels).(analyze := old(channels).analyze.(errors := old(channels).analyze.errors + [f]))
      ensures projects == old(projects) && artifacts == old(artifacts)
    {
      channels := channels.(analyze := channels.analyze.(errors := channels.analyze.errors + [f]));
    }

    /** `resolvedDependencies` and `dependencyResolutionFailed`. */
    method ResolvedDependencies(a: ResolvedArtifact)
      modifies this
      ensures channels == old(channels).(resolveDependencies := old(channels).resolveDependencies.(results := old(channels).resolveDependencies.results + [a]))
      ensures projects == old(projects) && artifacts == old(artifacts)
    {
      channels := channels.(resolveDependencies := channels.resolveDependencies.(results := channels.resolveDependencies.results + [a]));
    }

    method DependencyResolutionFailed(f: FailedArtifact)
      modifies this
      ensures channels == old(channels).(resolveDependencies := old(channels).resolveDependencies.(errors := old(channels).resolveDependencies.errors + [f]))
      ensures projects == old(projects) && artifacts == old(artifacts)
    {
      channels := channels.(resolveDependencies := channels.resolveDependencies.(errors := channels.resolveDependencies.errors + [f]));
    }
  }

  /** Queuing keeps every succeeded resolution and deep analysis. */
  lemma QueuedKeepsValid(nodes: Nodes, queued: Nodes)
    requires Registered(nodes) && DeepStates(nodes)
    requires queued.Keys == nodes.Keys && forall x :: x in nodes ==> queued[x] == QueuedNode(nodes[x])
    ensures Registered(queued) && DeepStates(queued)
  {
    forall y, d | d in Dependees(queued, y) ensures d in queued {
      assert d in Dependees(nodes, y);
    }
    forall x | x in nodes
      ensures DeepState(x, queued[x])
    {
      assert DeepState(x, nodes[x]);
    }
  }
}
