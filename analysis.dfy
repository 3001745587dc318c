/** `Analysis`: the deep-analysis bookkeeping. Every artifact is first "in
    analysis" with an `AnalysisState`, and becomes "deeply analyzed" once its
    own violations are known and every one of its dependees is deeply
    analyzed; finishing one artifact can finish the artifacts that waited
    for it, transitively. */
module Analyses {
  import opened Wrappers
  import opened Coordinates
  import opened Markers
  import opened Violations
  import opened Artifacts

  /** `AnalysisState`: what is known so far about one artifact in analysis.
      The analyzed dependees are kept in the order they were analyzed. */
  datatype AnalysisState = AnalysisState(
    dependeesWereResolved: bool,
    dependeesToAnalyse: set<ArtifactCoordinates>,
    analyzedDependees: seq<ArtifactCoordinates>,
    violationsWereAnalyzed: bool,
    violations: seq<Violation>)

  /** The state `addInAnalysis` creates. */
  const NewState := AnalysisState(false, {}, [], false, [])

  /** `AnalysisState.resolved`: once only; every dependee becomes pending. */
  function ResolveState(s: AnalysisState, dependees: seq<ArtifactCoordinates>): (r: Result<AnalysisState>)
    ensures r.Ok? <==> !s.dependeesWereResolved
    ensures r.Err? ==> r.error == IllegalState
    ensures r.Ok? ==> r.value.dependeesWereResolved && r.value.violationsWereAnalyzed == s.violationsWereAnalyzed
  {
    if s.dependeesWereResolved then Err(IllegalState)
    else Ok(s.(dependeesToAnalyse := s.dependeesToAnalyse + (set d | d in dependees), dependeesWereResolved := true))
  }

  /** `AnalysisState.analyzed`: once only; records the violations. */
  function AnalyzeState(s: AnalysisState, violations: seq<Violation>): (r: Result<AnalysisState>)
    ensures r.Ok? <==> !s.violationsWereAnalyzed
    ensures r.Err? ==> r.error == IllegalState
    ensures r.Ok? ==> r.value.violationsWereAnalyzed && r.value.violations == violations
  {
    if s.violationsWereAnalyzed then Err(IllegalState)
    else Ok(s.(violations := violations, violationsWereAnalyzed := true))
  }

  /** `AnalysisState.dependeeAnalyzed`: only for a pending dependee, which
      moves from the pending set to the analyzed ones. */
  function DependeeAnalyzedState(s: AnalysisState, dependee: ArtifactCoordinates): (r: Result<AnalysisState>)
    ensures r.Ok? <==> dependee in s.dependeesToAnalyse
    ensures r.Err? ==> r.error == IllegalState
    ensures r.Ok? ==> dependee !in r.value.dependeesToAnalyse && dependee in r.value.analyzedDependees
  {
    if dependee !in s.dependeesToAnalyse then Err(IllegalState)
    else Ok(s.(
      dependeesToAnalyse := s.dependeesToAnalyse - {dependee},
      analyzedDependees := if dependee in s.analyzedDependees then s.analyzedDependees
                           else s.analyzedDependees + [dependee]))
  }

  predicate AllDependeesAnalyzed(s: AnalysisState)
  {
    s.dependeesWereResolved && s.dependeesToAnalyse == {}
  }

  /** `isDeeplyAnalyzed`. */
  predicate IsDeeplyAnalyzed(s: AnalysisState)
  {
    s.violationsWereAnalyzed && AllDependeesAnalyzed(s)
  }

  /** `analyzedDependees()`: fails while a dependee is pending. */
  function AnalyzedDependeesOf(s: AnalysisState): (r: Result<seq<ArtifactCoordinates>>)
    ensures r.Ok? <==> AllDependeesAnalyzed(s)
    ensures r.Err? ==> r.error == IllegalState
    ensures r.Ok? ==> r.value == s.analyzedDependees
  {
    if !AllDependeesAnalyzed(s) then Err(IllegalState) else Ok(s.analyzedDependees)
  }

  /** `violations()`: fails until the violations were analyzed. */
  function ViolationsOf(s: AnalysisState): (r: Result<seq<Violation>>)
    ensures r.Ok? <==> s.violationsWereAnalyzed
    ensures r.Err? ==> r.error == IllegalState
    ensures r.Ok? ==> r.value == s.violations
  {
    if !s.violationsWereAnalyzed then Err(IllegalState) else Ok(s.violations)
  }

  /** `dependeeAnalyzed` for each dependee in turn; the first failure stops. */
  function DependeesAnalyzed(s: AnalysisState, dependees: seq<ArtifactCoordinates>): Result<AnalysisState>
    decreases |dependees|
  {
    if dependees == [] then Ok(s)
    else
      var next :- DependeeAnalyzedState(s, dependees[0]);
      DependeesAnalyzed(next, dependees[1..])
  }

  predicate Distinct<X(==)>(xs: seq<X>)
  {
    forall i, j :: 0 <= i < j < |xs| ==> xs[i] != xs[j]
  }

  lemma ElementsCons<X>(xs: seq<X>)
    requires xs != []
    ensures (set x | x in xs) == {xs[0]} + (set x | x in xs[1..])
  {
    assert xs == [xs[0]] + xs[1..];
  }

  lemma RemoveInTurn<X>(pending: set<X>, first: X, rest: set<X>, all: set<X>)
    requires all == {first} + rest
    ensures (pending - {first}) - rest == pending - all
  {
  }

  lemma AppendInTurn<X>(done: seq<X>, first: X, rest: seq<X>, all: seq<X>)
    requires all == [first] + rest
    ensures (done + [first]) + rest == done + all
  {
  }

  /** Reporting distinct pending dependees as analyzed succeeds and removes
      exactly them from the pending set; the analyzed ones are appended in
      the order reported. */
  lemma {:induction false} DependeesAnalyzedRemovesThem(s: AnalysisState, dependees: seq<ArtifactCoordinates>)
    requires Distinct(dependees)
    requires forall d :: d in dependees ==> d in s.dependeesToAnalyse && d !in s.analyzedDependees
    ensures DependeesAnalyzed(s, dependees).Ok?
    ensures DependeesAnalyzed(s, dependees).value
         == s.(dependeesToAnalyse := s.dependeesToAnalyse - (set d | d in dependees),
               analyzedDependees := s.analyzedDependees + dependees)
    decreases |dependees|
  {
    if dependees != [] {
      var first, rest := dependees[0], dependees[1..];
      var next := s.(dependeesToAnalyse := s.dependeesToAnalyse - {first},
                     analyzedDependees := s.analyzedDependees + [first]);
      assert DependeeAnalyzedState(s, first) == Ok(next);
      forall d | d in rest
        ensures d in next.dependeesToAnalyse && d !in next.analyzedDependees
      {
        var k :| 0 <= k < |rest| && rest[k] == d;
        assert dependees[k + 1] == d && dependees[0] == first;
      }
      assert Distinct(rest) by {
        forall i, j | 0 <= i < j < |rest| ensures rest[i] != rest[j] {
          assert rest[i] == dependees[i + 1] && rest[j] == dependees[j + 1];
        }
      }
      DependeesAnalyzedRemovesThem(next, rest);
      assert DependeesAnalyzed(s, dependees) == DependeesAnalyzed(next, rest);
      ElementsCons(dependees);
      RemoveInTurn(s.dependeesToAnalyse, first, set d | d in rest, set d | d in dependees);
      assert dependees == [first] + rest;
      AppendInTurn(s.analyzedDependees, first, rest, dependees);
    }
  }

  /** A resolved and analyzed artifact is deeply analyzed exactly when every
      dependee it was resolved with has been reported analyzed, whatever the
      order of the reports. */
  lemma DeeplyAnalyzedIffAllDependeesReported(
    dependees: seq<ArtifactCoordinates>, violations: seq<Violation>, reported: seq<ArtifactCoordinates>)
    requires Distinct(reported) && forall d :: d in reported ==> d in dependees
    ensures ResolveState(NewState, dependees).Ok?
    ensures AnalyzeState(ResolveState(NewState, dependees).value, violations).Ok?
    ensures DependeesAnalyzed(AnalyzeState(ResolveState(NewState, dependees).value, violations).value, reported).Ok?
    ensures var s := DependeesAnalyzed(AnalyzeState(ResolveState(NewState, dependees).value, violations).value, reported).value;
            && (IsDeeplyAnalyzed(s) <==> forall d :: d in dependees ==> d in reported)
            && s.analyzedDependees == reported && s.violations == violations
  {
    var analyzed := AnalyzeState(ResolveState(NewState, dependees).value, violations).value;
    DependeesAnalyzedRemovesThem(analyzed, reported);
    var s := DependeesAnalyzed(analyzed, reported).value;
    if forall d :: d in dependees ==> d in reported {
      assert s.dependeesToAnalyse == {};
    } else {
      var d :| d in dependees && d !in reported;
      assert d in s.dependeesToAnalyse;
    }
  }

  /** The deeply analyzed artifacts stored for the given coordinates. */
  function LookUp(ds: seq<ArtifactCoordinates>, deep: map<ArtifactCoordinates, DeeplyAnalyzedArtifact>): (r: seq<DeeplyAnalyzedArtifact>)
    requires forall d :: d in ds ==> d in deep
    ensures |r| == |ds| && forall i :: 0 <= i < |ds| ==> r[i] == deep[ds[i]]
  {
    if ds == [] then [] else [deep[ds[0]]] + LookUp(ds[1..], deep)
  }

  function InternalMarkers(ds: seq<DeeplyAnalyzedArtifact>): (ms: seq<Internal>)
    ensures |ms| == |ds| && forall i :: 0 <= i < |ds| ==> ms[i] == ds[i].marker
  {
    if ds == [] then [] else [ds[0].marker] + InternalMarkers(ds[1..])
  }

  /** `createDeeplyAnalyzedArtifact`: DIRECT for own violations, otherwise
      NONE combined with each dependee's marker in turn. */
  function CreateDeeplyAnalyzed(
    artifact: ArtifactCoordinates, s: AnalysisState, deep: map<ArtifactCoordinates, DeeplyAnalyzedArtifact>)
    : (r: DeeplyAnalyzedArtifact)
    requires forall d :: d in s.analyzedDependees ==> d in deep
  {
    var dependees := LookUp(s.analyzedDependees, deep);
    var own := if |s.violations| == 0 then Internal.NONE else Internal.DIRECT;
    DeeplyAnalyzedArtifact(artifact, FoldWithDependees(own, InternalMarkers(dependees)), s.violations, dependees)
  }

  /** The marker of a deeply analyzed artifact: DIRECT exactly for an
      artifact with violations of its own; otherwise NONE exactly when every
      dependee is NONE, and INDIRECT else. */
  lemma CreatedMarker(artifact: ArtifactCoordinates, s: AnalysisState, deep: map<ArtifactCoordinates, DeeplyAnalyzedArtifact>)
    requires forall d :: d in s.analyzedDependees ==> d in deep
    ensures var r := CreateDeeplyAnalyzed(artifact, s, deep);
            && r.artifact == artifact && r.violations == s.violations
            && |r.dependees| == |s.analyzedDependees|
            && (forall i :: 0 <= i < |r.dependees| ==> r.dependees[i] == deep[s.analyzedDependees[i]])
            && (r.marker.DIRECT? <==> |s.violations| > 0)
            && (r.marker.NONE? <==> |s.violations| == 0 && forall i :: 0 <= i < |r.dependees| ==> r.dependees[i].marker.NONE?)
  {
    var dependees := LookUp(s.analyzedDependees, deep);
    var own := if |s.violations| == 0 then Internal.NONE else Internal.DIRECT;
    var ms := InternalMarkers(dependees);
    FoldWithDependeesResult(own, ms);
  }

  /** The coordinates of some deeply analyzed artifacts. */
  ghost function ArtifactsOf(fs: seq<DeeplyAnalyzedArtifact>): set<ArtifactCoordinates>
  {
    set i | 0 <= i < |fs| :: fs[i].artifact
  }

  lemma ArtifactsOfConcat(a: seq<DeeplyAnalyzedArtifact>, b: seq<DeeplyAnalyzedArtifact>)
    ensures ArtifactsOf(a + b) == ArtifactsOf(a) + ArtifactsOf(b)
  {
    forall x | x in ArtifactsOf(a + b) ensures x in ArtifactsOf(a) + ArtifactsOf(b) {
      var i :| 0 <= i < |a + b| && (a + b)[i].artifact == x;
      if i >= |a| { assert b[i - |a|].artifact == x; }
    }
    forall x | x in ArtifactsOf(a) ensures x in ArtifactsOf(a + b) {
      var i :| 0 <= i < |a| && a[i].artifact == x;
      assert (a + b)[i].artifact == x;
    }
    forall x | x in ArtifactsOf(b) ensures x in ArtifactsOf(a + b) {
      var i :| 0 <= i < |b| && b[i].artifact == x;
      assert (a + b)[i + |a|].artifact == x;
    }
  }

  /** Dependents by dependee, the shape of the store's waiting multimap. */
  type Dependents = map<ArtifactCoordinates, set<ArtifactCoordinates>>

  /** The dependents waiting for `dependee`. */
  function Waiters(waiting: Dependents, dependee: ArtifactCoordinates): set<ArtifactCoordinates>
  {
    if dependee in waiting then waiting[dependee] else {}
  }

  /** `dependent` awaits each of `dependees`. */
  ghost function Awaiting(dependent: ArtifactCoordinates, dependees: set<ArtifactCoordinates>): Dependents
  {
    map d | d in dependees :: {dependent}
  }

  /** The dependees from index `i` on. */
  ghost function DependeesFrom(dependees: seq<ArtifactCoordinates>, i: nat): set<ArtifactCoordinates>
    requires i <= |dependees|
  {
    set k | i <= k < |dependees| :: dependees[k]
  }

  /** What the store's invariant asks of the artifact `x` in analysis with
      state `s`: each pending dependee is waited for or open, and only open
      or unnotified when it is deeply analyzed already; each analyzed
      dependee is deeply analyzed; `x` itself is not deeply analyzed unless
      it is `complete`; before resolution nothing is pending or analyzed. */
  ghost predicate StateConsistent(
    x: ArtifactCoordinates, s: AnalysisState, deep: map<ArtifactCoordinates, DeeplyAnalyzedArtifact>,
    waiting: Dependents, open: Dependents, complete: set<ArtifactCoordinates>, unnotified: set<ArtifactCoordinates>)
  {
    && (forall d :: d in s.dependeesToAnalyse ==> x in Waiters(waiting, d) || x in Waiters(open, d))
    && (forall d :: d in s.dependeesToAnalyse && d in deep ==> x in Waiters(open, d) || d in unnotified)
    && (forall d :: d in s.analyzedDependees ==> d in deep)
    && (x !in complete ==> !IsDeeplyAnalyzed(s))
    && (!s.dependeesWereResolved ==> s.dependeesToAnalyse == {} && s.analyzedDependees == [])
  }

  /** Every recorded dependent is in analysis with the dependee pending. */
  ghost predicate RecordsPending(inAnalysis: map<ArtifactCoordinates, AnalysisState>, dependents: Dependents)
  {
    forall d, x :: d in dependents && x in dependents[d] ==> x in inAnalysis && d in inAnalysis[x].dependeesToAnalyse
  }

  /** The store's invariant, with the exceptions an operation needs while it
      is under way: `open` are pending dependencies not (or no longer)
      recorded in the waiting map, `complete` are artifacts in analysis that
      may already be deeply analyzed, `unnotified` are deeply analyzed
      artifacts whose waiting dependents were not yet told. With all three
      empty:
      - no artifact is both in analysis and deeply analyzed;
      - each deeply analyzed artifact is stored under its own coordinates;
      - an artifact waits for a dependee exactly when that dependee is
        pending in its state, and a pending dependee is never deeply
        analyzed;
      - every analyzed dependee is deeply analyzed;
      - no artifact in analysis is deeply analyzed already;
      - nothing waits for a deeply analyzed artifact. */
  ghost predicate Consistent(
    inAnalysis: map<ArtifactCoordinates, AnalysisState>,
    deep: map<ArtifactCoordinates, DeeplyAnalyzedArtifact>,
    waiting: Dependents, open: Dependents,
    complete: set<ArtifactCoordinates>, unnotified: set<ArtifactCoordinates>)
  {
    && inAnalysis.Keys !! deep.Keys
    && (forall a :: a in deep ==> deep[a].artifact == a)
    && RecordsPending(inAnalysis, waiting)
    && RecordsPending(inAnalysis, open)
    && (forall x :: x in inAnalysis ==> StateConsistent(x, inAnalysis[x], deep, waiting, open, complete, unnotified))
    && (forall d :: d in waiting && d in deep ==> d in unnotified)
  }

  /** A fresh store holding formerly analyzed artifacts is consistent. */
  lemma FormerlyAnalyzedConsistent(deep: map<ArtifactCoordinates, DeeplyAnalyzedArtifact>)
    requires forall a :: a in deep ==> deep[a].artifact == a
    ensures Consistent(map[], deep, map[], map[], {}, {})
  {
  }

  /** `startAnalysis` adds an artifact known nowhere with a new state. */
  lemma StartKeepsConsistent(
    inAnalysis: map<ArtifactCoordinates, AnalysisState>, deep: map<ArtifactCoordinates, DeeplyAnalyzedArtifact>,
    waiting: Dependents, a: ArtifactCoordinates)
    requires Consistent(inAnalysis, deep, waiting, map[], {}, {})
    requires a !in inAnalysis && a !in deep
    ensures Consistent(inAnalysis[a := NewState], deep, waiting, map[], {}, {})
  {
    var started := inAnalysis[a := NewState];
    forall x | x in started ensures StateConsistent(x, started[x], deep, waiting, map[], {}, {}) {
      if x != a {
        assert started[x] == inAnalysis[x];
      }
    }
    forall d, x | d in waiting && x in waiting[d] ensures x in started && d in started[x].dependeesToAnalyse {
      assert x in inAnalysis && started[x] == inAnalysis[x];
    }
  }

  /** After `resolved`, every dependee of the artifact is pending but not yet
      recorded as waited for, and the artifact may be complete. */
  lemma ResolveOpens(
    inAnalysis: map<ArtifactCoordinates, AnalysisState>, deep: map<ArtifactCoordinates, DeeplyAnalyzedArtifact>,
    waiting: Dependents, x: ArtifactCoordinates, dependees: seq<ArtifactCoordinates>)
    requires Consistent(inAnalysis, deep, waiting, map[], {}, {})
    requires x in inAnalysis && !inAnalysis[x].dependeesWereResolved
    ensures ResolveState(inAnalysis[x], dependees).Ok?
    ensures Consistent(inAnalysis[x := ResolveState(inAnalysis[x], dependees).value], deep, waiting,
                       Awaiting(x, DependeesFrom(dependees, 0)), {x}, {})
  {
    var s := ResolveState(inAnalysis[x], dependees).value;
    var resolved := inAnalysis[x := s];
    var open := Awaiting(x, DependeesFrom(dependees, 0));
    assert s.dependeesToAnalyse == set d | d in dependees;
    forall y | y in resolved ensures StateConsistent(y, resolved[y], deep, waiting, open, {x}, {}) {
      if y != x {
        assert resolved[y] == inAnalysis[y];
        assert StateConsistent(y, inAnalysis[y], deep, waiting, map[], {}, {});
        forall d | d in resolved[y].dependeesToAnalyse ensures y in Waiters(waiting, d) {
          assert y !in Waiters(map[], d);
        }
      } else {
        forall d | d in s.dependeesToAnalyse ensures x in Waiters(open, d) {
          var k :| 0 <= k < |dependees| && dependees[k] == d;
          assert d in DependeesFrom(dependees, 0);
        }
      }
    }
    forall d, y | d in waiting && y in waiting[d] ensures y in resolved && d in resolved[y].dependeesToAnalyse {
      assert y != x;
    }
    forall d, y | d in open && y in open[d] ensures y in resolved && d in resolved[y].dependeesToAnalyse {
      var k :| 0 <= k < |dependees| && dependees[k] == d;
    }
  }

  /** With distinct dependees, those from `i + 1` on are those from `i` on
      without the one at `i`. */
  lemma DependeesFromNext(dependees: seq<ArtifactCoordinates>, i: nat)
    requires Distinct(dependees) && i < |dependees|
    ensures DependeesFrom(dependees, i + 1) == DependeesFrom(dependees, i) - {dependees[i]}
  {
    var next := i + 1;
    forall d | d in DependeesFrom(dependees, next) ensures d != dependees[i] {
      var k :| next <= k < |dependees| && dependees[k] == d;
    }
  }

  /** A dependee of a freshly resolved artifact that is deeply analyzed
      already is reported analyzed at once. */
  lemma AnalyzedDependeeKeepsConsistent(
    inAnalysis: map<ArtifactCoordinates, AnalysisState>, deep: map<ArtifactCoordinates, DeeplyAnalyzedArtifact>,
    waiting: Dependents, x: ArtifactCoordinates, rest: set<ArtifactCoordinates>, d: ArtifactCoordinates)
    requires d in rest && d in deep
    requires Consistent(inAnalysis, deep, waiting, Awaiting(x, rest), {x}, {})
    ensures x in inAnalysis && DependeeAnalyzedState(inAnalysis[x], d).Ok?
    ensures Consistent(inAnalysis[x := DependeeAnalyzedState(inAnalysis[x], d).value], deep, waiting,
                       Awaiting(x, rest - {d}), {x}, {})
  {
    var before, after := Awaiting(x, rest), Awaiting(x, rest - {d});
    assert d in before && x in before[d];
    var s := DependeeAnalyzedState(inAnalysis[x], d).value;
    var told := inAnalysis[x := s];
    forall y | y in told ensures StateConsistent(y, told[y], deep, waiting, after, {x}, {}) {
      assert StateConsistent(y, inAnalysis[y], deep, waiting, before, {x}, {});
      if y != x {
        assert told[y] == inAnalysis[y];
        forall e | e in told[y].dependeesToAnalyse ensures y in Waiters(waiting, e) && e !in deep {
          assert y !in Waiters(before, e);
        }
      } else {
        forall e | e in s.dependeesToAnalyse ensures x in Waiters(waiting, e) || x in Waiters(after, e) {
          assert e != d && e in inAnalysis[x].dependeesToAnalyse;
        }
        forall e | e in s.dependeesToAnalyse && e in deep ensures x in Waiters(after, e) {
          assert e != d && e in inAnalysis[x].dependeesToAnalyse;
        }
      }
    }
    assert d !in waiting;
    forall e, y | e in waiting && y in waiting[e] ensures y in told && e in told[y].dependeesToAnalyse {
      assert y in inAnalysis && e in inAnalysis[y].dependeesToAnalyse;
    }
    forall e, y | e in after && y in after[e] ensures y in told && e in told[y].dependeesToAnalyse {
      assert e in before && y == x && e != d;
    }
  }

  /** A dependee of a freshly resolved artifact that is not deeply analyzed
      yet is waited for. */
  lemma WaitedForDependeeKeepsConsistent(
    inAnalysis: map<ArtifactCoordinates, AnalysisState>, deep: map<ArtifactCoordinates, DeeplyAnalyzedArtifact>,
    waiting: Dependents, x: ArtifactCoordinates, rest: set<ArtifactCoordinates>, d: ArtifactCoordinates)
    requires d in rest && d !in deep
    requires Consistent(inAnalysis, deep, waiting, Awaiting(x, rest), {x}, {})
    ensures Consistent(inAnalysis, deep, waiting[d := Waiters(waiting, d) + {x}], Awaiting(x, rest - {d}), {x}, {})
  {
    var before, after := Awaiting(x, rest), Awaiting(x, rest - {d});
    var waits := waiting[d := Waiters(waiting, d) + {x}];
    assert d in before && x in before[d];
    forall y | y in inAnalysis ensures StateConsistent(y, inAnalysis[y], deep, waits, after, {x}, {}) {
      WaitedForStateConsistent(y, inAnalysis[y], deep, waiting, x, rest, d);
    }
    forall e, y | e in waits && y in waits[e] ensures y in inAnalysis && e in inAnalysis[y].dependeesToAnalyse {
      if e != d || y != x {
        assert e in waiting && y in waiting[e];
      }
    }
    forall e, y | e in after && y in after[e] ensures y in inAnalysis && e in inAnalysis[y].dependeesToAnalyse {
      assert e in before && y in before[e];
    }
  }

  lemma WaitedForStateConsistent(
    y: ArtifactCoordinates, s: AnalysisState, deep: map<ArtifactCoordinates, DeeplyAnalyzedArtifact>,
    waiting: Dependents, x: ArtifactCoordinates, rest: set<ArtifactCoordinates>, d: ArtifactCoordinates)
    requires d in rest && d !in deep
    requires StateConsistent(y, s, deep, waiting, Awaiting(x, rest), {x}, {})
    ensures StateConsistent(y, s, deep, waiting[d := Waiters(waiting, d) + {x}], Awaiting(x, rest - {d}), {x}, {})
  {
    var before, after := Awaiting(x, rest), Awaiting(x, rest - {d});
    var waits := waiting[d := Waiters(waiting, d) + {x}];
    forall e | e in s.dependeesToAnalyse ensures y in Waiters(waits, e) || y in Waiters(after, e) {
      if e != d {
        assert Waiters(waits, e) == Waiters(waiting, e);
        assert y in Waiters(before, e) ==> e in rest - {d};
      }
    }
    forall e | e in s.dependeesToAnalyse && e in deep ensures y in Waiters(after, e) {
      assert y in Waiters(before, e) && e != d;
    }
  }

  /** After `analyzed`, the artifact may be complete. */
  lemma AnalyzeOpens(
    inAnalysis: map<ArtifactCoordinates, AnalysisState>, deep: map<ArtifactCoordinates, DeeplyAnalyzedArtifact>,
    waiting: Dependents, x: ArtifactCoordinates, violations: seq<Violation>)
    requires Consistent(inAnalysis, deep, waiting, map[], {}, {})
    requires x in inAnalysis && !inAnalysis[x].violationsWereAnalyzed
    ensures AnalyzeState(inAnalysis[x], violations).Ok?
    ensures Consistent(inAnalysis[x := AnalyzeState(inAnalysis[x], violations).value], deep, waiting, map[], {x}, {})
  {
    var analyzed := inAnalysis[x := AnalyzeState(inAnalysis[x], violations).value];
    forall y | y in analyzed ensures StateConsistent(y, analyzed[y], deep, waiting, map[], {x}, {}) {
      assert StateConsistent(y, inAnalysis[y], deep, waiting, map[], {}, {});
    }
    forall e, y | e in waiting && y in waiting[e] ensures y in analyzed && e in analyzed[y].dependeesToAnalyse {
      assert y in inAnalysis && e in inAnalysis[y].dependeesToAnalyse;
    }
  }

  /** A complete artifact that is not deeply analyzed leaves nothing open. */
  lemma IncompleteCloses(
    inAnalysis: map<ArtifactCoordinates, AnalysisState>, deep: map<ArtifactCoordinates, DeeplyAnalyzedArtifact>,
    waiting: Dependents, open: Dependents, x: ArtifactCoordinates)
    requires Consistent(inAnalysis, deep, waiting, open, {x}, {})
    requires x in inAnalysis && !IsDeeplyAnalyzed(inAnalysis[x])
    ensures Consistent(inAnalysis, deep, waiting, open, {}, {})
  {
    forall y | y in inAnalysis ensures StateConsistent(y, inAnalysis[y], deep, waiting, open, {}, {}) {
      assert StateConsistent(y, inAnalysis[y], deep, waiting, open, {x}, {});
    }
  }

  /** `markArtifactAsDeeplyAnalyzed`: a deeply analyzed artifact moves from
      the analysis to the results; its waiting dependents are still to be
      told. */
  lemma MarkKeepsConsistent(
    inAnalysis: map<ArtifactCoordinates, AnalysisState>, deep: map<ArtifactCoordinates, DeeplyAnalyzedArtifact>,
    waiting: Dependents, open: Dependents, x: ArtifactCoordinates, f: DeeplyAnalyzedArtifact)
    requires Consistent(inAnalysis, deep, waiting, open, {x}, {})
    requires x in inAnalysis && IsDeeplyAnalyzed(inAnalysis[x]) && f.artifact == x
    ensures Consistent(inAnalysis - {x}, deep[x := f], waiting, open, {}, {x})
  {
    var rest, deeper := inAnalysis - {x}, deep[x := f];
    forall y | y in rest ensures StateConsistent(y, rest[y], deeper, waiting, open, {}, {x}) {
      assert StateConsistent(y, inAnalysis[y], deep, waiting, open, {x}, {});
    }
    forall e, y | e in waiting && y in waiting[e] ensures y in rest && e in rest[y].dependeesToAnalyse {
      assert y in inAnalysis && e in inAnalysis[y].dependeesToAnalyse;
    }
    forall e, y | e in open && y in open[e] ensures y in rest && e in rest[y].dependeesToAnalyse {
      assert y in inAnalysis && e in inAnalysis[y].dependeesToAnalyse;
    }
  }

  /** `stopWaitingFor`: once the dependents of a deeply analyzed artifact are
      taken out of the waiting map, they are open until they are told. */
  lemma StopWaitingKeepsConsistent(
    inAnalysis: map<ArtifactCoordinates, AnalysisState>, deep: map<ArtifactCoordinates, DeeplyAnalyzedArtifact>,
    waiting: Dependents, open: Dependents, r: ArtifactCoordinates)
    requires Consistent(inAnalysis, deep, waiting, open, {}, {r}) && r in deep && r !in open
    ensures Consistent(inAnalysis, deep, waiting - {r}, open[r := Waiters(waiting, r)], {}, {})
  {
    var waits, handed := waiting - {r}, open[r := Waiters(waiting, r)];
    forall y | y in inAnalysis ensures StateConsistent(y, inAnalysis[y], deep, waits, handed, {}, {}) {
      assert StateConsistent(y, inAnalysis[y], deep, waiting, open, {}, {r});
      forall e | e in inAnalysis[y].dependeesToAnalyse ensures y in Waiters(waits, e) || y in Waiters(handed, e) {
        if e != r {
          assert Waiters(waits, e) == Waiters(waiting, e) && Waiters(handed, e) == Waiters(open, e);
        }
      }
      forall e | e in inAnalysis[y].dependeesToAnalyse && e in deep ensures y in Waiters(handed, e) {
        if e != r {
          assert Waiters(handed, e) == Waiters(open, e);
        }
      }
    }
    forall e, y | e in handed && y in handed[e] ensures y in inAnalysis && e in inAnalysis[y].dependeesToAnalyse {
      if e == r {
        assert e in waiting && y in waiting[e];
      } else {
        assert e in open && y in open[e];
      }
    }
  }

  /** `dependeeAnalyzed` for a dependent that was waiting for `r`. */
  lemma NoteKeepsConsistent(
    inAnalysis: map<ArtifactCoordinates, AnalysisState>, deep: map<ArtifactCoordinates, DeeplyAnalyzedArtifact>,
    waiting: Dependents, open: Dependents, r: ArtifactCoordinates, remaining: set<ArtifactCoordinates>,
    x: ArtifactCoordinates)
    requires Consistent(inAnalysis, deep, waiting, open[r := remaining], {}, {})
    requires r in deep && r !in waiting && x in remaining
    ensures x in inAnalysis && DependeeAnalyzedState(inAnalysis[x], r).Ok?
    ensures Consistent(inAnalysis[x := DependeeAnalyzedState(inAnalysis[x], r).value], deep, waiting,
                       open[r := remaining - {x}], {x}, {})
  {
    var before, after := open[r := remaining], open[r := remaining - {x}];
    assert r in before && x in before[r];
    var s := DependeeAnalyzedState(inAnalysis[x], r).value;
    var told := inAnalysis[x := s];
    forall y | y in told ensures StateConsistent(y, told[y], deep, waiting, after, {x}, {}) {
      assert StateConsistent(y, inAnalysis[y], deep, waiting, before, {}, {});
      if y != x {
        assert told[y] == inAnalysis[y];
        forall e | e in told[y].dependeesToAnalyse ensures y in Waiters(waiting, e) || y in Waiters(after, e) {
          if e != r {
            assert Waiters(after, e) == Waiters(before, e);
          }
        }
        forall e | e in told[y].dependeesToAnalyse && e in deep ensures y in Waiters(after, e) {
          if e != r {
            assert Waiters(after, e) == Waiters(before, e);
          }
        }
      } else {
        forall e | e in s.dependeesToAnalyse ensures x in Waiters(waiting, e) || x in Waiters(after, e) {
          assert e != r && Waiters(after, e) == Waiters(before, e);
        }
      }
    }
    forall e, y | e in waiting && y in waiting[e] ensures y in told && e in told[y].dependeesToAnalyse {
      assert y in inAnalysis && e in inAnalysis[y].dependeesToAnalyse && e != r;
    }
    forall e, y | e in after && y in after[e] ensures y in told && e in told[y].dependeesToAnalyse {
      assert e in before && y in before[e];
    }
  }

  /** Once every dependent of `r` was told, nothing is open for it. */
  lemma AllToldCloses(
    inAnalysis: map<ArtifactCoordinates, AnalysisState>, deep: map<ArtifactCoordinates, DeeplyAnalyzedArtifact>,
    waiting: Dependents, open: Dependents, r: ArtifactCoordinates)
    requires Consistent(inAnalysis, deep, waiting, open[r := {}], {}, {}) && r !in open
    ensures Consistent(inAnalysis, deep, waiting, open, {}, {})
  {
    forall y | y in inAnalysis ensures StateConsistent(y, inAnalysis[y], deep, waiting, open, {}, {}) {
      assert StateConsistent(y, inAnalysis[y], deep, waiting, open[r := {}], {}, {});
      assert forall e :: Waiters(open[r := {}], e) == Waiters(open, e);
    }
    forall e, y | e in open && y in open[e] ensures y in inAnalysis && e in inAnalysis[y].dependeesToAnalyse {
      assert e in open[r := {}] && y in open[r := {}][e];
    }
  }

  /** The internal marker of a deeply analyzed artifact derives from its
      own violations and its dependees' markers. */
  ghost predicate MarkerDerived(f: DeeplyAnalyzedArtifact)
  {
    f.marker == FoldWithDependees(if |f.violations| == 0 then Internal.NONE else Internal.DIRECT, InternalMarkers(f.dependees))
  }

  ghost predicate DistinctArtifacts(fs: seq<DeeplyAnalyzedArtifact>)
  {
    forall i, j :: 0 <= i < j < |fs| ==> fs[i].artifact != fs[j].artifact
  }

  /** The artifacts `finished` left the analysis and joined the results,
      each under its own coordinates, with a derived marker; earlier results
      are kept. */
  ghost predicate Finished(
    inAnalysis0: set<ArtifactCoordinates>, deep0: map<ArtifactCoordinates, DeeplyAnalyzedArtifact>,
    inAnalysis1: set<ArtifactCoordinates>, deep1: map<ArtifactCoordinates, DeeplyAnalyzedArtifact>,
    finished: seq<DeeplyAnalyzedArtifact>)
  {
    && ArtifactsOf(finished) <= inAnalysis0
    && inAnalysis1 == inAnalysis0 - ArtifactsOf(finished)
    && deep1.Keys == deep0.Keys + ArtifactsOf(finished)
    && (forall a :: a in deep0 ==> deep1[a] == deep0[a])
    && (forall i :: 0 <= i < |finished| ==> deep1[finished[i].artifact] == finished[i] && MarkerDerived(finished[i]))
    && DistinctArtifacts(finished)
  }

  lemma FinishedFromSameKeys(
    inAnalysis0: set<ArtifactCoordinates>, inAnalysis0': set<ArtifactCoordinates>, deep0: map<ArtifactCoordinates, DeeplyAnalyzedArtifact>,
    inAnalysis1: set<ArtifactCoordinates>, deep1: map<ArtifactCoordinates, DeeplyAnalyzedArtifact>,
    finished: seq<DeeplyAnalyzedArtifact>)
    requires inAnalysis0 == inAnalysis0' && Finished(inAnalysis0', deep0, inAnalysis1, deep1, finished)
    ensures Finished(inAnalysis0, deep0, inAnalysis1, deep1, finished)
  {
  }

  lemma FinishedNothing(
    inAnalysis: set<ArtifactCoordinates>, deep: map<ArtifactCoordinates, DeeplyAnalyzedArtifact>)
    ensures Finished(inAnalysis, deep, inAnalysis, deep, [])
  {
  }

  lemma FinishedOne(
    inAnalysis: set<ArtifactCoordinates>, deep: map<ArtifactCoordinates, DeeplyAnalyzedArtifact>,
    f: DeeplyAnalyzedArtifact)
    requires f.artifact in inAnalysis && f.artifact !in deep && MarkerDerived(f)
    ensures Finished(inAnalysis, deep, inAnalysis - {f.artifact}, deep[f.artifact := f], [f])
  {
    assert [f][0].artifact == f.artifact;
    assert ArtifactsOf([f]) == {f.artifact};
  }

  lemma {:induction false} FinishedInTurn(
    inAnalysis0: set<ArtifactCoordinates>, deep0: map<ArtifactCoordinates, DeeplyAnalyzedArtifact>,
    inAnalysis1: set<ArtifactCoordinates>, deep1: map<ArtifactCoordinates, DeeplyAnalyzedArtifact>,
    inAnalysis2: set<ArtifactCoordinates>, deep2: map<ArtifactCoordinates, DeeplyAnalyzedArtifact>,
    first: seq<DeeplyAnalyzedArtifact>, second: seq<DeeplyAnalyzedArtifact>)
    requires Finished(inAnalysis0, deep0, inAnalysis1, deep1, first)
    requires Finished(inAnalysis1, deep1, inAnalysis2, deep2, second)
    ensures Finished(inAnalysis0, deep0, inAnalysis2, deep2, first + second)
  {
    ArtifactsOfConcat(first, second);
    FinishedEntriesConcat(deep1, deep2, first, second);
    DistinctArtifactsConcat(first, second);
  }

  lemma FinishedEntriesConcat(
    deep1: map<ArtifactCoordinates, DeeplyAnalyzedArtifact>, deep2: map<ArtifactCoordinates, DeeplyAnalyzedArtifact>,
    first: seq<DeeplyAnalyzedArtifact>, second: seq<DeeplyAnalyzedArtifact>)
    requires forall a :: a in deep1 ==> a in deep2 && deep2[a] == deep1[a]
    requires forall i :: 0 <= i < |first| ==>
      first[i].artifact in deep1 && deep1[first[i].artifact] == first[i] && MarkerDerived(first[i])
    requires forall i :: 0 <= i < |second| ==>
      second[i].artifact in deep2 && deep2[second[i].artifact] == second[i] && MarkerDerived(second[i])
    ensures forall i :: 0 <= i < |first + second| ==>
      && (first + second)[i].artifact in deep2
      && deep2[(first + second)[i].artifact] == (first + second)[i]
      && MarkerDerived((first + second)[i])
  {
    var both := first + second;
    forall i | 0 <= i < |both|
      ensures both[i].artifact in deep2 && deep2[both[i].artifact] == both[i] && MarkerDerived(both[i])
    {
      if i < |first| {
        assert both[i] == first[i];
      } else {
        assert both[i] == second[i - |first|];
      }
    }
  }

  lemma DistinctArtifactsConcat(first: seq<DeeplyAnalyzedArtifact>, second: seq<DeeplyAnalyzedArtifact>)
    requires DistinctArtifacts(first) && DistinctArtifacts(second)
    requires ArtifactsOf(first) !! ArtifactsOf(second)
    ensures DistinctArtifacts(first + second)
  {
    var both := first + second;
    forall i, j | 0 <= i < j < |both| ensures both[i].artifact != both[j].artifact {
      if j < |first| {
        assert both[i] == first[i] && both[j] == first[j];
      } else if i >= |first| {
        assert both[i] == second[i - |first|] && both[j] == second[j - |first|];
      } else {
        assert both[i] == first[i];
        assert both[i].artifact in ArtifactsOf(first);
        assert both[j] == second[j - |first|];
        assert both[j].artifact in ArtifactsOf(second);
      }
    }
  }

  /** The dependees a state has accounted for: the analyzed ones and the
      pending ones. Resolution fixes this set, and the later steps of an
      artifact's analysis only move dependees from pending to analyzed. */
  ghost function Accounted(s: AnalysisState): set<ArtifactCoordinates>
  {
    (set d | d in s.analyzedDependees) + s.dependeesToAnalyse
  }

  /** Resolving an artifact whose dependees were not resolved yet makes
      exactly the resolved dependees accounted for. */
  lemma ResolvedAccounted(s: AnalysisState, ds: seq<ArtifactCoordinates>)
    requires !s.dependeesWereResolved
    requires !s.dependeesWereResolved ==> s.dependeesToAnalyse == {} && s.analyzedDependees == []
    ensures Accounted(ResolveState(s, ds).value) == set d | d in ds
  {
  }

  /** `s1` is `s0` later in the same analysis: the same flags and
      violations, the analyzed dependees extended at the end, and the same
      dependees accounted for. */
  ghost predicate Advanced(s0: AnalysisState, s1: AnalysisState)
  {
    && s1.dependeesWereResolved == s0.dependeesWereResolved
    && s1.violationsWereAnalyzed == s0.violationsWereAnalyzed
    && s1.violations == s0.violations
    && s0.analyzedDependees <= s1.analyzedDependees
    && Accounted(s1) == Accounted(s0)
  }

  /** Every artifact still in analysis in `in1` was in analysis in `in0`
      and only advanced since. */
  ghost predicate Progressed(in0: map<ArtifactCoordinates, AnalysisState>, in1: map<ArtifactCoordinates, AnalysisState>)
  {
    forall y :: y in in1 ==> y in in0 && Advanced(in0[y], in1[y])
  }

  /** The deeply analyzed artifact `f` was created from an artifact whose
      state was `s0` at some point: it carries those violations, and its
      dependees are the stored results of exactly the dependees `s0`
      accounted for, the ones already analyzed first and in their order. */
  ghost predicate DerivedFrom(f: DeeplyAnalyzedArtifact, s0: AnalysisState,
                              deep: map<ArtifactCoordinates, DeeplyAnalyzedArtifact>)
  {
    && f.violations == s0.violations
    && (forall i :: 0 <= i < |f.dependees| ==> f.dependees[i].artifact in deep && deep[f.dependees[i].artifact] == f.dependees[i])
    && s0.analyzedDependees <= CoordinatesOf(f.dependees)
    && (set d | d in CoordinatesOf(f.dependees)) == Accounted(s0)
  }

  /** Each of `found` derives from the state its artifact had in `in0`. */
  ghost predicate AllDerived(in0: map<ArtifactCoordinates, AnalysisState>,
                             deep: map<ArtifactCoordinates, DeeplyAnalyzedArtifact>, found: seq<DeeplyAnalyzedArtifact>)
  {
    forall i :: 0 <= i < |found| ==> found[i].artifact in in0 && DerivedFrom(found[i], in0[found[i].artifact], deep)
  }

  /** Reporting a pending dependee analyzed advances the state. */
  lemma DependeeAnalyzedAdvances(s: AnalysisState, r: ArtifactCoordinates)
    requires DependeeAnalyzedState(s, r).Ok?
    ensures Advanced(s, DependeeAnalyzedState(s, r).value)
  {
    var t := DependeeAnalyzedState(s, r).value;
    if r !in s.analyzedDependees {
      assert (set d | d in t.analyzedDependees) == (set d | d in s.analyzedDependees) + {r};
    }
  }

  /** Marking the deeply analyzed ones among pending dependees advances
      the state. */
  lemma MarkedAdvances(s: AnalysisState, ds: seq<ArtifactCoordinates>, deep: map<ArtifactCoordinates, DeeplyAnalyzedArtifact>)
    requires forall d :: d in ds ==> d in s.dependeesToAnalyse
    ensures Advanced(s, Marked(s, ds, |ds|, deep))
  {
    MarkedFields(s, ds, |ds|, deep);
    assert ds[..|ds|] == ds;
    DeepOnesMembers(ds, deep);
    var m := Marked(s, ds, |ds|, deep);
    assert (set d | d in m.analyzedDependees) == (set d | d in s.analyzedDependees) + (set d | d in ds && d in deep);
  }

  lemma AdvancedInTurn(s0: AnalysisState, s1: AnalysisState, s2: AnalysisState)
    requires Advanced(s0, s1) && Advanced(s1, s2)
    ensures Advanced(s0, s2)
  {
    assert s1.analyzedDependees[..|s0.analyzedDependees|] == s2.analyzedDependees[..|s0.analyzedDependees|];
  }

  lemma ProgressedInTurn(in0: map<ArtifactCoordinates, AnalysisState>, in1: map<ArtifactCoordinates, AnalysisState>,
                         in2: map<ArtifactCoordinates, AnalysisState>)
    requires Progressed(in0, in1) && Progressed(in1, in2)
    ensures Progressed(in0, in2)
  {
    forall y | y in in2 ensures y in in0 && Advanced(in0[y], in2[y]) {
      AdvancedInTurn(in0[y], in1[y], in2[y]);
    }
  }

  lemma ProgressedUpdate(in0: map<ArtifactCoordinates, AnalysisState>, x: ArtifactCoordinates, s: AnalysisState)
    requires x in in0 && Advanced(in0[x], s)
    ensures Progressed(in0, in0[x := s])
  {
  }

  /** Reporting one dependee of `x` analyzed advances its state and
      changes no other. */
  lemma NoteProgresses(in0: map<ArtifactCoordinates, AnalysisState>, in1: map<ArtifactCoordinates, AnalysisState>,
                       x: ArtifactCoordinates, r: ArtifactCoordinates)
    requires x in in0 && in1.Keys == in0.Keys && DependeeAnalyzedState(in0[x], r).Ok?
    requires in1[x] == DependeeAnalyzedState(in0[x], r).value
    requires forall y :: y in in1 && y != x ==> in1[y] == in0[y]
    ensures Progressed(in0, in1)
  {
    DependeeAnalyzedAdvances(in0[x], r);
  }

  lemma ProgressedRefl(in0: map<ArtifactCoordinates, AnalysisState>)
    ensures Progressed(in0, in0)
  {
  }

  /** Finishing a deeply analyzed `x` stores an artifact derived from its
      state, and leaves the others as they were. */
  lemma FinishedDerived(in0: map<ArtifactCoordinates, AnalysisState>, deep: map<ArtifactCoordinates, DeeplyAnalyzedArtifact>,
                        x: ArtifactCoordinates)
    requires x in in0 && x !in deep && IsDeeplyAnalyzed(in0[x])
    requires forall d :: d in in0[x].analyzedDependees ==> d in deep
    requires forall a :: a in deep ==> deep[a].artifact == a
    ensures var f := CreateDeeplyAnalyzed(x, in0[x], deep);
            AllDerived(in0, deep[x := f], [f]) && Progressed(in0, in0 - {x})
  {
    var f := CreateDeeplyAnalyzed(x, in0[x], deep);
    CreatedDerived(x, in0[x], in0[x], deep);
    DerivedEarlier(f, in0[x], in0[x], deep, deep[x := f]);
  }

  /** The artifact created from a deeply analyzed state derives from every
      earlier state of the same analysis. */
  lemma CreatedDerived(x: ArtifactCoordinates, s0: AnalysisState, s1: AnalysisState,
                       deep: map<ArtifactCoordinates, DeeplyAnalyzedArtifact>)
    requires Advanced(s0, s1) && IsDeeplyAnalyzed(s1)
    requires forall d :: d in s1.analyzedDependees ==> d in deep
    requires forall a :: a in deep ==> deep[a].artifact == a
    ensures DerivedFrom(CreateDeeplyAnalyzed(x, s1, deep), s0, deep)
  {
    var f := CreateDeeplyAnalyzed(x, s1, deep);
    CreatedMarker(x, s1, deep);
    assert CoordinatesOf(f.dependees) == s1.analyzedDependees;
  }

  /** A derivation stays valid under a later, advanced state of the same
      analysis and with more results stored. */
  lemma DerivedEarlier(f: DeeplyAnalyzedArtifact, s0: AnalysisState, s1: AnalysisState,
                       deep1: map<ArtifactCoordinates, DeeplyAnalyzedArtifact>,
                       deep2: map<ArtifactCoordinates, DeeplyAnalyzedArtifact>)
    requires Advanced(s0, s1) && DerivedFrom(f, s1, deep1)
    requires forall a :: a in deep1 ==> a in deep2 && deep2[a] == deep1[a]
    ensures DerivedFrom(f, s0, deep2)
  {
    var cs := CoordinatesOf(f.dependees);
    assert s1.analyzedDependees[..|s0.analyzedDependees|] == cs[..|s0.analyzedDependees|];
  }

  lemma AllDerivedEarlier(in0: map<ArtifactCoordinates, AnalysisState>, in1: map<ArtifactCoordinates, AnalysisState>,
                          deep: map<ArtifactCoordinates, DeeplyAnalyzedArtifact>, found: seq<DeeplyAnalyzedArtifact>)
    requires Progressed(in0, in1) && AllDerived(in1, deep, found)
    ensures AllDerived(in0, deep, found)
  {
    forall i | 0 <= i < |found| ensures found[i].artifact in in0 && DerivedFrom(found[i], in0[found[i].artifact], deep) {
      var a := found[i].artifact;
      DerivedEarlier(found[i], in0[a], in1[a], deep, deep);
    }
  }

  /** Derivations of two successive stretches of finishing combine. */
  lemma AllDerivedInTurn(in0: map<ArtifactCoordinates, AnalysisState>, in1: map<ArtifactCoordinates, AnalysisState>,
                         deep1: map<ArtifactCoordinates, DeeplyAnalyzedArtifact>,
                         deep2: map<ArtifactCoordinates, DeeplyAnalyzedArtifact>,
                         first: seq<DeeplyAnalyzedArtifact>, second: seq<DeeplyAnalyzedArtifact>)
    requires AllDerived(in0, deep1, first) && Progressed(in0, in1) && AllDerived(in1, deep2, second)
    requires forall a :: a in deep1 ==> a in deep2 && deep2[a] == deep1[a]
    ensures AllDerived(in0, deep2, first + second)
  {
    var both := first + second;
    forall i | 0 <= i < |both| ensures both[i].artifact in in0 && DerivedFrom(both[i], in0[both[i].artifact], deep2) {
      if i < |first| {
        assert both[i] == first[i];
        DerivedEarlier(first[i], in0[first[i].artifact], in0[first[i].artifact], deep1, deep2);
      } else {
        var f := second[i - |first|];
        assert both[i] == f;
        DerivedEarlier(f, in0[f.artifact], in1[f.artifact], deep2, deep2);
      }
    }
  }

  /** Collecting the formerly analyzed artifacts by their coordinates; a
      coordinate that appears twice fails, as `toMap` does. */
  function ToMap(fs: seq<DeeplyAnalyzedArtifact>): Result<map<ArtifactCoordinates, DeeplyAnalyzedArtifact>>
  {
    if fs == [] then Ok(map[])
    else
      var rest :- ToMap(fs[1..]);
      if fs[0].artifact in rest then Err(IllegalState) else Ok(rest[fs[0].artifact := fs[0]])
  }

  /** `toMap` succeeds exactly on distinct coordinates and then maps each
      artifact's coordinates to it. */
  lemma {:induction false} ToMapSpec(fs: seq<DeeplyAnalyzedArtifact>)
    ensures ToMap(fs).Ok? <==> DistinctArtifacts(fs)
    ensures ToMap(fs).Err? ==> ToMap(fs).error == IllegalState
    ensures ToMap(fs).Ok? ==> ToMap(fs).value.Keys == ArtifactsOf(fs)
    ensures ToMap(fs).Ok? ==> forall i :: 0 <= i < |fs| ==> ToMap(fs).value[fs[i].artifact] == fs[i]
  {
    if fs != [] {
      var tail := fs[1..];
      ToMapSpec(tail);
      ArtifactsOfCons(fs);
      DistinctArtifactsCons(fs);
      if ToMap(tail).Ok? && fs[0].artifact !in ToMap(tail).value {
        var m := ToMap(tail).value[fs[0].artifact := fs[0]];
        assert ToMap(fs) == Ok(m);
        forall i | 0 <= i < |fs| ensures m[fs[i].artifact] == fs[i] {
          if i > 0 {
            assert fs[i] == tail[i - 1];
          }
        }
      }
    }
  }

  lemma ArtifactsOfCons(fs: seq<DeeplyAnalyzedArtifact>)
    requires fs != []
    ensures ArtifactsOf(fs) == {fs[0].artifact} + ArtifactsOf(fs[1..])
  {
    assert fs == [fs[0]] + fs[1..];
    ArtifactsOfConcat([fs[0]], fs[1..]);
    assert [fs[0]][0] == fs[0];
  }

  lemma DistinctArtifactsCons(fs: seq<DeeplyAnalyzedArtifact>)
    requires fs != []
    ensures DistinctArtifacts(fs) <==> DistinctArtifacts(fs[1..]) && fs[0].artifact !in ArtifactsOf(fs[1..])
  {
    var tail := fs[1..];
    if !DistinctArtifacts(tail) {
      var i, j :| 0 <= i < j < |tail| && tail[i].artifact == tail[j].artifact;
      assert fs[i + 1].artifact == fs[j + 1].artifact;
    } else if fs[0].artifact in ArtifactsOf(tail) {
      var k :| 0 <= k < |tail| && tail[k].artifact == fs[0].artifact;
      assert fs[k + 1].artifact == fs[0].artifact;
    } else {
      forall i, j | 0 <= i < j < |fs| ensures fs[i].artifact != fs[j].artifact {
        assert fs[j] == tail[j - 1];
        if i > 0 {
          assert fs[i] == tail[i - 1];
        }
      }
    }
  }

  /** The dependees that are deeply analyzed already, in their order. */
  ghost function DeepOnes(ds: seq<ArtifactCoordinates>, deep: map<ArtifactCoordinates, DeeplyAnalyzedArtifact>)
    : seq<ArtifactCoordinates>
    decreases |ds|
  {
    if ds == [] then []
    else
      var last := ds[|ds| - 1];
      DeepOnes(ds[..|ds| - 1], deep) + (if last in deep then [last] else [])
  }

  /** They are exactly the dependees that are deeply analyzed. */
  lemma {:induction false} DeepOnesMembers(ds: seq<ArtifactCoordinates>, deep: map<ArtifactCoordinates, DeeplyAnalyzedArtifact>)
    ensures forall d :: d in DeepOnes(ds, deep) <==> d in ds && d in deep
    decreases |ds|
  {
    if ds != [] {
      var init := ds[..|ds| - 1];
      DeepOnesMembers(init, deep);
      assert ds == init + [ds[|ds| - 1]];
    }
  }

  /** With every dependee deeply analyzed, all of them are kept. */
  lemma {:induction false} DeepOnesAll(ds: seq<ArtifactCoordinates>, deep: map<ArtifactCoordinates, DeeplyAnalyzedArtifact>)
    requires forall d :: d in ds ==> d in deep
    ensures DeepOnes(ds, deep) == ds
    decreases |ds|
  {
    if ds != [] {
      var init := ds[..|ds| - 1];
      assert forall d :: d in init ==> d in ds;
      DeepOnesAll(init, deep);
      assert ds == init + [ds[|ds| - 1]];
    }
  }

  /** The state of a resolved artifact once each of the first `n` of `ds`
      that is deeply analyzed was reported analyzed, in order. */
  ghost function Marked(s: AnalysisState, ds: seq<ArtifactCoordinates>, n: nat,
                        deep: map<ArtifactCoordinates, DeeplyAnalyzedArtifact>): AnalysisState
    requires n <= |ds|
  {
    if n == 0 then s
    else
      var m := Marked(s, ds, n - 1, deep);
      if ds[n - 1] in deep then m.(dependeesToAnalyse := m.dependeesToAnalyse - {ds[n - 1]},
                                   analyzedDependees := m.analyzedDependees + [ds[n - 1]])
      else m
  }

  /** Marking removes the deeply analyzed ones among the first `n`
      dependees from the pending ones and appends them, in order, to the
      analyzed ones; nothing else changes. */
  lemma {:induction false} MarkedFields(s: AnalysisState, ds: seq<ArtifactCoordinates>, n: nat,
                                        deep: map<ArtifactCoordinates, DeeplyAnalyzedArtifact>)
    requires n <= |ds|
    ensures var m := Marked(s, ds, n, deep);
            && m.dependeesToAnalyse == s.dependeesToAnalyse - (set d | d in ds[..n] && d in deep)
            && m.analyzedDependees == s.analyzedDependees + DeepOnes(ds[..n], deep)
            && m.dependeesWereResolved == s.dependeesWereResolved
            && m.violationsWereAnalyzed == s.violationsWereAnalyzed && m.violations == s.violations
  {
    if n == 0 {
      assert ds[..0] == [];
    } else {
      MarkedFields(s, ds, n - 1, deep);
      DeepOnesStep(ds, n, deep);
      DeepSetStep(ds, n, deep);
    }
  }

  lemma DeepOnesStep(ds: seq<ArtifactCoordinates>, n: nat, deep: map<ArtifactCoordinates, DeeplyAnalyzedArtifact>)
    requires 0 < n <= |ds|
    ensures DeepOnes(ds[..n], deep) == DeepOnes(ds[..n - 1], deep) + (if ds[n - 1] in deep then [ds[n - 1]] else [])
  {
    var p := ds[..n];
    assert p[..|p| - 1] == ds[..n - 1];
  }

  lemma DeepSetStep(ds: seq<ArtifactCoordinates>, n: nat, deep: map<ArtifactCoordinates, DeeplyAnalyzedArtifact>)
    requires 0 < n <= |ds|
    ensures (set d | d in ds[..n] && d in deep)
              == (set d | d in ds[..n - 1] && d in deep) + (if ds[n - 1] in deep then {ds[n - 1]} else {})
  {
    assert ds[..n] == ds[..n - 1] + [ds[n - 1]];
  }

  /** Reporting a deeply analyzed dependee of a freshly resolved artifact,
      whose dependees are distinct, gives the next marked state. */
  lemma MarkedReport(s: AnalysisState, ds: seq<ArtifactCoordinates>, i: nat, deep: map<ArtifactCoordinates, DeeplyAnalyzedArtifact>)
    requires Distinct(ds) && i < |ds| && s.analyzedDependees == [] && ds[i] in deep
    requires ds[i] in s.dependeesToAnalyse
    ensures DependeeAnalyzedState(Marked(s, ds, i, deep), ds[i]) == Ok(Marked(s, ds, i + 1, deep))
  {
    MarkedFields(s, ds, i, deep);
    DeepOnesMembers(ds[..i], deep);
  }

  /** The waiting map once `x` waits for each of the first `n` of `ds`
      that is not deeply analyzed, in order. */
  ghost function WithWaiter(waiting: Dependents, x: ArtifactCoordinates, ds: seq<ArtifactCoordinates>, n: nat,
                            deep: map<ArtifactCoordinates, DeeplyAnalyzedArtifact>): Dependents
    requires n <= |ds|
  {
    if n == 0 then waiting
    else
      var w := WithWaiter(waiting, x, ds, n - 1, deep);
      if ds[n - 1] in deep then w else w[ds[n - 1] := Waiters(w, ds[n - 1]) + {x}]
  }

  /** A dependent waits for a dependee afterwards exactly when it did
      before, or it is `x` and the dependee is one of the first `n` of `ds`
      that is not deeply analyzed. */
  lemma {:induction false} WithWaiterMeaning(waiting: Dependents, x: ArtifactCoordinates, ds: seq<ArtifactCoordinates>,
                                             n: nat, deep: map<ArtifactCoordinates, DeeplyAnalyzedArtifact>)
    requires n <= |ds|
    ensures forall d :: Waiters(WithWaiter(waiting, x, ds, n, deep), d)
                          == Waiters(waiting, d) + (if d in ds[..n] && d !in deep then {x} else {})
  {
    if n > 0 {
      WithWaiterMeaning(waiting, x, ds, n - 1, deep);
      assert ds[..n] == ds[..n - 1] + [ds[n - 1]];
      assert forall d :: d in ds[..n] <==> d in ds[..n - 1] || d == ds[n - 1];
    } else {
      assert ds[..0] == [];
    }
  }

  /** The state `resolved` leaves for an artifact that was not resolved
      yet: exactly the dependees that are not deeply analyzed are pending,
      the deeply analyzed ones are analyzed in the order of the resolution,
      and the artifact is deeply analyzed exactly when its violations are
      known and every dependee was deeply analyzed already. */
  lemma MarkedResolvedState(s: AnalysisState, ds: seq<ArtifactCoordinates>, deep: map<ArtifactCoordinates, DeeplyAnalyzedArtifact>)
    requires !s.dependeesWereResolved && s.dependeesToAnalyse == {} && s.analyzedDependees == []
    ensures ResolveState(s, ds).Ok?
    ensures var m := Marked(ResolveState(s, ds).value, ds, |ds|, deep);
            && m.dependeesWereResolved
            && m.violationsWereAnalyzed == s.violationsWereAnalyzed && m.violations == s.violations
            && m.dependeesToAnalyse == (set d | d in ds && d !in deep)
            && m.analyzedDependees == DeepOnes(ds, deep)
            && (IsDeeplyAnalyzed(m) <==> s.violationsWereAnalyzed && forall d :: d in ds ==> d in deep)
            && ((forall d :: d in ds ==> d in deep) ==> m.analyzedDependees == ds)
  {
    var r := ResolveState(s, ds).value;
    var m := Marked(r, ds, |ds|, deep);
    MarkedFields(r, ds, |ds|, deep);
    assert ds[..|ds|] == ds;
    assert m.dependeesToAnalyse == (set d | d in ds && d !in deep);
    if forall d :: d in ds ==> d in deep {
      DeepOnesAll(ds, deep);
    } else {
      var d :| d in ds && d !in deep;
      assert d in m.dependeesToAnalyse;
    }
  }

  /** Resolving an artifact not resolved yet makes each dependee pending. */
  lemma ResolvedFresh(s: AnalysisState, ds: seq<ArtifactCoordinates>)
    requires !s.dependeesWereResolved && s.analyzedDependees == []
    ensures ResolveState(s, ds).Ok? && ResolveState(s, ds).value.analyzedDependees == []
    ensures forall d :: d in ds ==> d in ResolveState(s, ds).value.dependeesToAnalyse
  {
  }

  /** An artifact that `resolved` leaves deeply analyzed had every dependee
      deeply analyzed already, and its deeply analyzed artifact carries its
      own violations and those dependees in the order of the resolution. */
  lemma ResolvedFinishes(s: AnalysisState, ds: seq<ArtifactCoordinates>,
                         deep: map<ArtifactCoordinates, DeeplyAnalyzedArtifact>)
    requires !s.dependeesWereResolved && s.dependeesToAnalyse == {} && s.analyzedDependees == []
    requires IsDeeplyAnalyzed(Marked(ResolveState(s, ds).value, ds, |ds|, deep))
    ensures forall d :: d in ds ==> d in deep
    ensures var m := Marked(ResolveState(s, ds).value, ds, |ds|, deep);
            && (forall d :: d in m.analyzedDependees ==> d in deep)
            && m.violations == s.violations && m.analyzedDependees == ds
  {
    MarkedResolvedState(s, ds, deep);
  }

  lemma SubsetNoLarger<T>(a: set<T>, b: set<T>)
    requires a <= b
    ensures |a| <= |b|
  {
    assert b == a + (b - a);
  }

  lemma UpdatedTwice<K, V>(m: map<K, V>, k: K, v: V, w: V)
    ensures m[k := v][k := w] == m[k := w]
  {
  }

  /** Reporting each dependee of a freshly resolved artifact analyzed or
      waited for, from the one at `i` on, keeps the store consistent and
      leaves nothing open. */
  lemma {:induction false} MarkedConsistent(
    inAnalysis: map<ArtifactCoordinates, AnalysisState>, deep: map<ArtifactCoordinates, DeeplyAnalyzedArtifact>,
    waiting: Dependents, x: ArtifactCoordinates, ds: seq<ArtifactCoordinates>, i: nat)
    requires Distinct(ds) && i <= |ds| && x in inAnalysis && inAnalysis[x].analyzedDependees == []
    requires forall d :: d in ds ==> d in inAnalysis[x].dependeesToAnalyse
    requires Consistent(inAnalysis[x := Marked(inAnalysis[x], ds, i, deep)], deep, WithWaiter(waiting, x, ds, i, deep),
                        Awaiting(x, DependeesFrom(ds, i)), {x}, {})
    ensures Consistent(inAnalysis[x := Marked(inAnalysis[x], ds, |ds|, deep)], deep, WithWaiter(waiting, x, ds, |ds|, deep),
                       map[], {x}, {})
    decreases |ds| - i
  {
    if i == |ds| {
      assert DependeesFrom(ds, i) == {};
      assert Awaiting(x, DependeesFrom(ds, i)) == map[];
    } else {
      MarkedConsistentStep(inAnalysis, deep, waiting, x, ds, i);
      MarkedConsistent(inAnalysis, deep, waiting, x, ds, i + 1);
    }
  }

  /** One dependee more reported analyzed or waited for. */
  lemma MarkedConsistentStep(
    inAnalysis: map<ArtifactCoordinates, AnalysisState>, deep: map<ArtifactCoordinates, DeeplyAnalyzedArtifact>,
    waiting: Dependents, x: ArtifactCoordinates, ds: seq<ArtifactCoordinates>, i: nat)
    requires Distinct(ds) && i < |ds| && x in inAnalysis && inAnalysis[x].analyzedDependees == []
    requires forall d :: d in ds ==> d in inAnalysis[x].dependeesToAnalyse
    requires Consistent(inAnalysis[x := Marked(inAnalysis[x], ds, i, deep)], deep, WithWaiter(waiting, x, ds, i, deep),
                        Awaiting(x, DependeesFrom(ds, i)), {x}, {})
    ensures Consistent(inAnalysis[x := Marked(inAnalysis[x], ds, i + 1, deep)], deep, WithWaiter(waiting, x, ds, i + 1, deep),
                       Awaiting(x, DependeesFrom(ds, i + 1)), {x}, {})
  {
    var s0 := inAnalysis[x];
    var d := ds[i];
    var states, waits := inAnalysis[x := Marked(s0, ds, i, deep)], WithWaiter(waiting, x, ds, i, deep);
    var rest := DependeesFrom(ds, i);
    assert d in rest;
    DependeesFromNext(ds, i);
    if d in deep {
      AnalyzedDependeeKeepsConsistent(states, deep, waits, x, rest, d);
      MarkedReport(s0, ds, i, deep);
      assert states[x := DependeeAnalyzedState(states[x], d).value] == inAnalysis[x := Marked(s0, ds, i + 1, deep)];
    } else {
      WaitedForDependeeKeepsConsistent(states, deep, waits, x, rest, d);
    }
  }

  /** The loop of `markDependeesAsAnalyzedOrWaitedFor` on the store's maps:
      the artifact's state and the waiting map after every dependee was
      reported analyzed or waited for, in order. */
  method MarkEach(
    inAnalysis: map<ArtifactCoordinates, AnalysisState>, deep: map<ArtifactCoordinates, DeeplyAnalyzedArtifact>,
    waiting: Dependents, x: ArtifactCoordinates, dependees: seq<ArtifactCoordinates>)
    returns (states: map<ArtifactCoordinates, AnalysisState>, waits: Dependents)
    requires Distinct(dependees) && x in inAnalysis && inAnalysis[x].analyzedDependees == []
    requires forall d :: d in dependees ==> d in inAnalysis[x].dependeesToAnalyse
    ensures states == inAnalysis[x := Marked(inAnalysis[x], dependees, |dependees|, deep)]
    ensures waits == WithWaiter(waiting, x, dependees, |dependees|, deep)
  {
    ghost var s0 := inAnalysis[x];
    states, waits := inAnalysis, waiting;
    var i := 0;
    while i < |dependees|
      invariant i <= |dependees|
      invariant states == inAnalysis[x := Marked(s0, dependees, i, deep)]
      invariant waits == WithWaiter(waiting, x, dependees, i, deep)
    {
      var d := dependees[i];
      if d in deep {
        MarkedReport(s0, dependees, i, deep);
        states := states[x := DependeeAnalyzedState(states[x], d).value];
      } else {
        waits := waits[d := Waiters(waits, d) + {x}];
      }
      i := i + 1;
    }
  }

  /** `Analysis` with its `ArtifactStore`: the artifacts in analysis with
      their states, the deeply analyzed artifacts, and for each dependee the
      dependents waiting for it. */
  class Analysis {
    var inAnalysis: map<ArtifactCoordinates, AnalysisState>
    var deeplyAnalyzed: map<ArtifactCoordinates, DeeplyAnalyzedArtifact>
    var waiting: Dependents

    ghost predicate Valid()
      reads this
    {
      Consistent(inAnalysis, deeplyAnalyzed, waiting, map[], {}, {})
    }

    constructor Holding(deep: map<ArtifactCoordinates, DeeplyAnalyzedArtifact>)
      requires forall a :: a in deep ==> deep[a].artifact == a
      ensures Valid()
      ensures inAnalysis == map[] && deeplyAnalyzed == deep && waiting == map[]
    {
      inAnalysis := map[];
      deeplyAnalyzed := deep;
      waiting := map[];
      FormerlyAnalyzedConsistent(deep);
    }

    /** The public constructor: starts from the formerly analyzed artifacts
        and fails on two of them with the same coordinates. */
    static method From(formerlyAnalyzed: seq<DeeplyAnalyzedArtifact>) returns (r: Result<Analysis>)
      ensures r.Ok? <==> DistinctArtifacts(formerlyAnalyzed)
      ensures r.Err? ==> r.error == IllegalState
      ensures r.Ok? ==> fresh(r.value) && r.value.Valid()
      ensures r.Ok? ==> r.value.inAnalysis == map[] && r.value.waiting == map[]
      ensures r.Ok? ==> r.value.deeplyAnalyzed.Keys == ArtifactsOf(formerlyAnalyzed)
      ensures r.Ok? ==> forall i :: 0 <= i < |formerlyAnalyzed| ==>
                          r.value.deeplyAnalyzed[formerlyAnalyzed[i].artifact] == formerlyAnalyzed[i]
    {
      var deep := ToMap(formerlyAnalyzed);
      ToMapSpec(formerlyAnalyzed);
      if deep.Err? {
        return Err(deep.error);
      }
      var analysis := new Analysis.Holding(deep.value);
      return Ok(analysis);
    }

    /** `startAnalysis`: true exactly for an artifact neither in analysis
        nor deeply analyzed, which is then in analysis with a new state. */
    method StartAnalysis(artifact: ArtifactCoordinates) returns (started: bool)
      requires Valid()
      modifies this
      ensures Valid()
      ensures started <==> artifact !in old(inAnalysis) && artifact !in old(deeplyAnalyzed)
      ensures inAnalysis == if started then old(inAnalysis)[artifact := NewState] else old(inAnalysis)
      ensures deeplyAnalyzed == old(deeplyAnalyzed) && waiting == old(waiting)
    {
      if artifact !in inAnalysis && artifact !in deeplyAnalyzed {
        StartKeepsConsistent(inAnalysis, deeplyAnalyzed, waiting, artifact);
        inAnalysis := inAnalysis[artifact := NewState];
        return true;
      }
      return false;
    }

    /** `resolved`: fails for an artifact not in analysis or resolved
        before, changing nothing; otherwise records the dependees, reports
        the deeply analyzed ones analyzed, waits for the others, and returns
        the artifacts that became deeply analyzed (none, or this artifact
        first). */
    method Resolved(resolved: ResolvedArtifact) returns (r: Result<seq<DeeplyAnalyzedArtifact>>)
      requires Valid() && Distinct(resolved.dependees)
      modifies this
      ensures Valid()
      ensures r.Ok? <==> resolved.artifact in old(inAnalysis) && !old(inAnalysis)[resolved.artifact].dependeesWereResolved
      ensures r.Err? ==> r.error == IllegalState && unchanged(this)
      ensures r.Ok? ==> Finished(old(inAnalysis.Keys), old(deeplyAnalyzed), inAnalysis.Keys, deeplyAnalyzed, r.value)
      ensures r.Ok? ==> (r.value == [] <==> resolved.artifact in inAnalysis)
      ensures r.Ok? && r.value != [] ==> r.value[0].artifact == resolved.artifact
      ensures r.Ok? ==>
                var recorded := old(inAnalysis)[resolved.artifact :=
                                  ResolveState(old(inAnalysis)[resolved.artifact], resolved.dependees).value];
                Progressed(recorded, inAnalysis) && AllDerived(recorded, deeplyAnalyzed, r.value)
      ensures r.Ok? && r.value == [] ==>
                && inAnalysis == old(inAnalysis)[resolved.artifact :=
                     Marked(ResolveState(old(inAnalysis)[resolved.artifact], resolved.dependees).value,
                            resolved.dependees, |resolved.dependees|, old(deeplyAnalyzed))]
                && deeplyAnalyzed == old(deeplyAnalyzed)
                && waiting == WithWaiter(old(waiting), resolved.artifact, resolved.dependees, |resolved.dependees|, old(deeplyAnalyzed))
      ensures r.Ok? && r.value != [] ==>
                && (forall d :: d in resolved.dependees ==> d in old(deeplyAnalyzed))
                && r.value[0].violations == old(inAnalysis)[resolved.artifact].violations
                && r.value[0].dependees == LookUp(resolved.dependees, old(deeplyAnalyzed))
    {
      var x := resolved.artifact;
      if x !in inAnalysis {
        return Err(IllegalState);
      }
      var state := ResolveState(inAnalysis[x], resolved.dependees);
      if state.Err? {
        return Err(state.error);
      }
      ghost var s0, deep0 := inAnalysis[x], deeplyAnalyzed;
      assert StateConsistent(x, s0, deeplyAnalyzed, waiting, map[], {}, {});
      ResolvedFresh(s0, resolved.dependees);
      ResolveOpens(inAnalysis, deeplyAnalyzed, waiting, x, resolved.dependees);
      ghost var keys, in0 := inAnalysis.Keys, inAnalysis;
      inAnalysis := inAnalysis[x := state.value];
      assert inAnalysis.Keys == keys;
      ghost var in1 := inAnalysis;
      var found := MarkAndFinish(x, resolved.dependees);
      ghost var m := Marked(state.value, resolved.dependees, |resolved.dependees|, deep0);
      MarkedAdvances(state.value, resolved.dependees, deep0);
      ProgressedUpdate(in1, x, m);
      ProgressedInTurn(in1, in1[x := m], inAnalysis);
      AllDerivedEarlier(in1, in1[x := m], deeplyAnalyzed, found);
      if found == [] {
        assert inAnalysis == in0[x := Marked(state.value, resolved.dependees, |resolved.dependees|, deep0)] by {
          UpdatedTwice(in0, x, state.value, Marked(state.value, resolved.dependees, |resolved.dependees|, deep0));
        }
      } else {
        ResolvedFinishes(s0, resolved.dependees, deep0);
      }
      return Ok(found);
    }

    /** The rest of `resolved` once the dependees are recorded: each is
        reported analyzed or waited for, and the artifact is finished if it
        is deeply analyzed now. */
    method MarkAndFinish(x: ArtifactCoordinates, dependees: seq<ArtifactCoordinates>)
      returns (found: seq<DeeplyAnalyzedArtifact>)
      requires Distinct(dependees) && x in inAnalysis && inAnalysis[x].analyzedDependees == []
      requires forall d :: d in dependees ==> d in inAnalysis[x].dependeesToAnalyse
      requires Consistent(inAnalysis, deeplyAnalyzed, waiting, Awaiting(x, DependeesFrom(dependees, 0)), {x}, {})
      modifies this
      ensures Valid()
      ensures Finished(old(inAnalysis.Keys), old(deeplyAnalyzed), inAnalysis.Keys, deeplyAnalyzed, found)
      ensures found == [] <==> x in inAnalysis
      ensures found != [] ==> found[0].artifact == x
      ensures var marked := old(inAnalysis)[x := Marked(old(inAnalysis)[x], dependees, |dependees|, old(deeplyAnalyzed))];
              Progressed(marked, inAnalysis) && AllDerived(marked, deeplyAnalyzed, found)
      ensures found == [] ==>
                && inAnalysis == old(inAnalysis)[x := Marked(old(inAnalysis)[x], dependees, |dependees|, old(deeplyAnalyzed))]
                && deeplyAnalyzed == old(deeplyAnalyzed)
                && waiting == WithWaiter(old(waiting), x, dependees, |dependees|, old(deeplyAnalyzed))
      ensures found != [] ==>
                && IsDeeplyAnalyzed(Marked(old(inAnalysis)[x], dependees, |dependees|, old(deeplyAnalyzed)))
                && (forall d :: d in Marked(old(inAnalysis)[x], dependees, |dependees|, old(deeplyAnalyzed)).analyzedDependees
                                ==> d in old(deeplyAnalyzed))
                && found[0].violations == Marked(old(inAnalysis)[x], dependees, |dependees|, old(deeplyAnalyzed)).violations
                && found[0].dependees == LookUp(Marked(old(inAnalysis)[x], dependees, |dependees|, old(deeplyAnalyzed)).analyzedDependees,
                                                old(deeplyAnalyzed))
    {
      ghost var keys := inAnalysis.Keys;
      ghost var m := Marked(inAnalysis[x], dependees, |dependees|, deeplyAnalyzed);
      MarkDependeesAsAnalyzedOrWaitedFor(x, dependees);
      ghost var resolvedKeys, marked := inAnalysis.Keys, inAnalysis;
      assert marked[x] == m;
      found := FinishIfDeeplyAnalyzed(x, map[]);
      FinishedFromSameKeys(keys, resolvedKeys, deeplyAnalyzed, inAnalysis.Keys, deeplyAnalyzed, found);
      if found == [] {
        assert inAnalysis == marked;
      } else {
        assert IsDeeplyAnalyzed(m);
      }
    }

    /** `markDependeesAsAnalyzedOrWaitedFor`: each dependee of a freshly
        resolved artifact is reported analyzed when it is deeply analyzed
        already, and waited for otherwise. */
    method MarkDependeesAsAnalyzedOrWaitedFor(x: ArtifactCoordinates, dependees: seq<ArtifactCoordinates>)
      requires Distinct(dependees) && x in inAnalysis && inAnalysis[x].analyzedDependees == []
      requires forall d :: d in dependees ==> d in inAnalysis[x].dependeesToAnalyse
      requires Consistent(inAnalysis, deeplyAnalyzed, waiting, Awaiting(x, DependeesFrom(dependees, 0)), {x}, {})
      modifies this
      ensures Consistent(inAnalysis, deeplyAnalyzed, waiting, map[], {x}, {})
      ensures inAnalysis == old(inAnalysis)[x := Marked(old(inAnalysis)[x], dependees, |dependees|, deeplyAnalyzed)]
      ensures deeplyAnalyzed == old(deeplyAnalyzed)
      ensures waiting == WithWaiter(old(waiting), x, dependees, |dependees|, deeplyAnalyzed)
    {
      assert inAnalysis[x := Marked(inAnalysis[x], dependees, 0, deeplyAnalyzed)] == inAnalysis;
      MarkedConsistent(inAnalysis, deeplyAnalyzed, waiting, x, dependees, 0);
      inAnalysis, waiting := MarkEach(inAnalysis, deeplyAnalyzed, waiting, x, dependees);
    }

    /** `analyzed`: fails for an artifact not in analysis or analyzed
        before, changing nothing; otherwise records the violations and
        returns the artifacts that became deeply analyzed (none, or this
        artifact first). */
    method Analyzed(analyzed: AnalyzedArtifact) returns (r: Result<seq<DeeplyAnalyzedArtifact>>)
      requires Valid()
      modifies this
      ensures Valid()
      ensures r.Ok? <==> analyzed.artifact in old(inAnalysis) && !old(inAnalysis)[analyzed.artifact].violationsWereAnalyzed
      ensures r.Err? ==> r.error == IllegalState && unchanged(this)
      ensures r.Ok? ==> Finished(old(inAnalysis.Keys), old(deeplyAnalyzed), inAnalysis.Keys, deeplyAnalyzed, r.value)
      ensures r.Ok? ==> (r.value == [] <==> analyzed.artifact in inAnalysis)
      ensures r.Ok? && r.value != [] ==> r.value[0].artifact == analyzed.artifact
      ensures r.Ok? ==>
                var recorded := old(inAnalysis)[analyzed.artifact :=
                                  AnalyzeState(old(inAnalysis)[analyzed.artifact], analyzed.violations).value];
                Progressed(recorded, inAnalysis) && AllDerived(recorded, deeplyAnalyzed, r.value)
      ensures r.Ok? && r.value == [] ==>
                && inAnalysis == old(inAnalysis)[analyzed.artifact :=
                     AnalyzeState(old(inAnalysis)[analyzed.artifact], analyzed.violations).value]
                && deeplyAnalyzed == old(deeplyAnalyzed) && waiting == old(waiting)
      ensures r.Ok? && r.value != [] ==>
                && (forall d :: d in old(inAnalysis)[analyzed.artifact].analyzedDependees ==> d in old(deeplyAnalyzed))
                && r.value[0].violations == analyzed.violations
                && r.value[0].dependees == LookUp(old(inAnalysis)[analyzed.artifact].analyzedDependees, old(deeplyAnalyzed))
    {
      var x := analyzed.artifact;
      if x !in inAnalysis {
        return Err(IllegalState);
      }
      var state := AnalyzeState(inAnalysis[x], analyzed.violations);
      if state.Err? {
        return Err(state.error);
      }
      AnalyzeOpens(inAnalysis, deeplyAnalyzed, waiting, x, analyzed.violations);
      ghost var keys := inAnalysis.Keys;
      inAnalysis := inAnalysis[x := state.value];
      ghost var analyzedKeys := inAnalysis.Keys;
      assert analyzedKeys == keys;
      var found := FinishIfDeeplyAnalyzed(x, map[]);
      FinishedFromSameKeys(keys, analyzedKeys, deeplyAnalyzed, inAnalysis.Keys, deeplyAnalyzed, found);
      return Ok(found);
    }

    /** `findDeeplyAnalyzedArtifacts`: nothing if the artifact is not deeply
        analyzed; otherwise it is created, marked, and its waiting dependents
        are told, recursively. */
    method FinishIfDeeplyAnalyzed(x: ArtifactCoordinates, ghost open: Dependents) returns (found: seq<DeeplyAnalyzedArtifact>)
      requires x in inAnalysis && Consistent(inAnalysis, deeplyAnalyzed, waiting, open, {x}, {})
      requires forall d :: d in open ==> d in deeplyAnalyzed
      modifies this
      ensures Consistent(inAnalysis, deeplyAnalyzed, waiting, open, {}, {})
      ensures waiting.Keys <= old(waiting.Keys)
      ensures Finished(old(inAnalysis.Keys), old(deeplyAnalyzed), inAnalysis.Keys, deeplyAnalyzed, found)
      ensures found == [] <==> x in inAnalysis
      ensures found != [] ==> found[0].artifact == x
      ensures Progressed(old(inAnalysis), inAnalysis) && AllDerived(old(inAnalysis), deeplyAnalyzed, found)
      ensures found == [] ==> inAnalysis == old(inAnalysis) && deeplyAnalyzed == old(deeplyAnalyzed) && waiting == old(waiting)
      ensures found != [] ==>
                && IsDeeplyAnalyzed(old(inAnalysis)[x])
                && (forall d :: d in old(inAnalysis)[x].analyzedDependees ==> d in old(deeplyAnalyzed))
                && found[0].violations == old(inAnalysis)[x].violations
                && found[0].dependees == LookUp(old(inAnalysis)[x].analyzedDependees, old(deeplyAnalyzed))
      decreases |inAnalysis.Keys|, 0, 1
    {
      if !IsDeeplyAnalyzed(inAnalysis[x]) {
        IncompleteCloses(inAnalysis, deeplyAnalyzed, waiting, open, x);
        FinishedNothing(inAnalysis.Keys, deeplyAnalyzed);
        ProgressedRefl(inAnalysis);
        return [];
      }
      found := FinishDeeplyAnalyzed(x, open);
    }

    /** `createDeeplyAnalyzedArtifact` and `markArtifactAsDeeplyAnalyzed`
        for a deeply analyzed artifact, followed by
        `findFinishedDependentsRecursively`. */
    method FinishDeeplyAnalyzed(x: ArtifactCoordinates, ghost open: Dependents)
      returns (found: seq<DeeplyAnalyzedArtifact>)
      requires x in inAnalysis && IsDeeplyAnalyzed(inAnalysis[x])
      requires Consistent(inAnalysis, deeplyAnalyzed, waiting, open, {x}, {})
      requires forall d :: d in open ==> d in deeplyAnalyzed
      modifies this
      ensures Consistent(inAnalysis, deeplyAnalyzed, waiting, open, {}, {})
      ensures waiting.Keys <= old(waiting.Keys)
      ensures Finished(old(inAnalysis.Keys), old(deeplyAnalyzed), inAnalysis.Keys, deeplyAnalyzed, found)
      ensures found != [] && found[0].artifact == x
      ensures forall d :: d in old(inAnalysis)[x].analyzedDependees ==> d in old(deeplyAnalyzed)
      ensures found[0] == CreateDeeplyAnalyzed(x, old(inAnalysis)[x], old(deeplyAnalyzed))
      ensures Progressed(old(inAnalysis), inAnalysis) && AllDerived(old(inAnalysis), deeplyAnalyzed, found)
      ensures |inAnalysis.Keys| < old(|inAnalysis.Keys|)
      decreases |inAnalysis.Keys|, 0, 0
    {
      ghost var in0 := inAnalysis;
      var f := MarkAsDeeplyAnalyzed(x, open);
      ghost var inAnalysis1, deep1, in1 := inAnalysis.Keys, deeplyAnalyzed, inAnalysis;
      var dependents := FindFinishedDependentsRecursively(f, open);
      FinishedInTurn(old(inAnalysis.Keys), old(deeplyAnalyzed), inAnalysis1, deep1, inAnalysis.Keys, deeplyAnalyzed, [f], dependents);
      ProgressedInTurn(in0, in1, inAnalysis);
      AllDerivedInTurn(in0, in1, deep1, deeplyAnalyzed, [f], dependents);
      found := [f] + dependents;
    }

    method MarkAsDeeplyAnalyzed(x: ArtifactCoordinates, ghost open: Dependents) returns (f: DeeplyAnalyzedArtifact)
      requires x in inAnalysis && IsDeeplyAnalyzed(inAnalysis[x])
      requires Consistent(inAnalysis, deeplyAnalyzed, waiting, open, {x}, {})
      requires forall d :: d in open ==> d in deeplyAnalyzed
      modifies this
      ensures f == CreateDeeplyAnalyzed(x, old(inAnalysis)[x], old(deeplyAnalyzed))
      ensures inAnalysis == old(inAnalysis) - {x} && deeplyAnalyzed == old(deeplyAnalyzed)[x := f]
      ensures waiting == old(waiting)
      ensures Consistent(inAnalysis, deeplyAnalyzed, waiting, open, {}, {x})
      ensures x !in open
      ensures Finished(old(inAnalysis.Keys), old(deeplyAnalyzed), inAnalysis.Keys, deeplyAnalyzed, [f])
      ensures Progressed(old(inAnalysis), inAnalysis) && AllDerived(old(inAnalysis), deeplyAnalyzed, [f])
    {
      f := CreateDeeplyAnalyzed(x, inAnalysis[x], deeplyAnalyzed);
      FinishedDerived(inAnalysis, deeplyAnalyzed, x);
      MarkKeepsConsistent(inAnalysis, deeplyAnalyzed, waiting, open, x, f);
      FinishedOne(inAnalysis.Keys, deeplyAnalyzed, f);
      inAnalysis := inAnalysis - {x};
      deeplyAnalyzed := deeplyAnalyzed[x := f];
    }

    /** `findFinishedDependentsRecursively` without its root: stops waiting
        for the deeply analyzed `root` and tells each dependent that waited
        for it. */
    method FindFinishedDependentsRecursively(root: DeeplyAnalyzedArtifact, ghost open: Dependents)
      returns (found: seq<DeeplyAnalyzedArtifact>)
      requires root.artifact in deeplyAnalyzed && root.artifact !in open
      requires Consistent(inAnalysis, deeplyAnalyzed, waiting, open, {}, {root.artifact})
      requires forall d :: d in open ==> d in deeplyAnalyzed
      modifies this
      ensures Consistent(inAnalysis, deeplyAnalyzed, waiting, open, {}, {})
      ensures waiting.Keys <= old(waiting.Keys) - {root.artifact}
      ensures Finished(old(inAnalysis.Keys), old(deeplyAnalyzed), inAnalysis.Keys, deeplyAnalyzed, found)
      ensures Progressed(old(inAnalysis), inAnalysis) && AllDerived(old(inAnalysis), deeplyAnalyzed, found)
      ensures |inAnalysis.Keys| <= old(|inAnalysis.Keys|)
      decreases |inAnalysis.Keys|, 3, 0
    {
      var dependents := StopWaitingFor(root.artifact, open);
      found := TellWaitingDependents(root.artifact, dependents, open);
    }

    /** `stopWaitingFor`: removes and returns the dependents waiting for a
        deeply analyzed artifact; each of them is still to be told. */
    method StopWaitingFor(r: ArtifactCoordinates, ghost open: Dependents) returns (dependents: set<ArtifactCoordinates>)
      requires r in deeplyAnalyzed && r !in open && Consistent(inAnalysis, deeplyAnalyzed, waiting, open, {}, {r})
      modifies this
      ensures dependents == Waiters(old(waiting), r)
      ensures waiting == old(waiting) - {r}
      ensures inAnalysis == old(inAnalysis) && deeplyAnalyzed == old(deeplyAnalyzed)
      ensures Consistent(inAnalysis, deeplyAnalyzed, waiting, open[r := dependents], {}, {})
    {
      dependents := Waiters(waiting, r);
      StopWaitingKeepsConsistent(inAnalysis, deeplyAnalyzed, waiting, open, r);
      waiting := waiting - {r};
    }

    /** The stream over the dependents that waited for `r`, one at a time
        in an order the store does not fix. */
    method TellWaitingDependents(r: ArtifactCoordinates, remaining: set<ArtifactCoordinates>, ghost open: Dependents)
      returns (found: seq<DeeplyAnalyzedArtifact>)
      requires Consistent(inAnalysis, deeplyAnalyzed, waiting, open[r := remaining], {}, {})
      requires r in deeplyAnalyzed && r !in waiting && r !in open
      requires forall d :: d in open ==> d in deeplyAnalyzed
      modifies this
      ensures Consistent(inAnalysis, deeplyAnalyzed, waiting, open, {}, {})
      ensures waiting.Keys <= old(waiting.Keys)
      ensures Finished(old(inAnalysis.Keys), old(deeplyAnalyzed), inAnalysis.Keys, deeplyAnalyzed, found)
      ensures Progressed(old(inAnalysis), inAnalysis) && AllDerived(old(inAnalysis), deeplyAnalyzed, found)
      ensures |inAnalysis.Keys| <= old(|inAnalysis.Keys|)
      decreases |inAnalysis.Keys|, 2, 2 * |remaining| + 1
    {
      if remaining == {} {
        AllToldCloses(inAnalysis, deeplyAnalyzed, waiting, open, r);
        FinishedNothing(inAnalysis.Keys, deeplyAnalyzed);
        ProgressedRefl(inAnalysis);
        return [];
      }
      found := TellSomeWaitingDependent(r, remaining, open);
    }

    /** One step of that stream: some remaining dependent is told, then the
        rest. */
    method TellSomeWaitingDependent(r: ArtifactCoordinates, remaining: set<ArtifactCoordinates>, ghost open: Dependents)
      returns (found: seq<DeeplyAnalyzedArtifact>)
      requires Consistent(inAnalysis, deeplyAnalyzed, waiting, open[r := remaining], {}, {})
      requires r in deeplyAnalyzed && r !in waiting && r !in open && remaining != {}
      requires forall d :: d in open ==> d in deeplyAnalyzed
      modifies this
      ensures Consistent(inAnalysis, deeplyAnalyzed, waiting, open, {}, {})
      ensures waiting.Keys <= old(waiting.Keys)
      ensures Finished(old(inAnalysis.Keys), old(deeplyAnalyzed), inAnalysis.Keys, deeplyAnalyzed, found)
      ensures Progressed(old(inAnalysis), inAnalysis) && AllDerived(old(inAnalysis), deeplyAnalyzed, found)
      ensures |inAnalysis.Keys| <= old(|inAnalysis.Keys|)
      decreases |inAnalysis.Keys|, 2, 2 * |remaining|
    {
      ghost var in0 := inAnalysis;
      var x :| x in remaining;
      var first := DependeeAnalyzed(x, r, open, remaining);
      ghost var inAnalysis1, deep1, in1 := inAnalysis.Keys, deeplyAnalyzed, inAnalysis;
      var rest := TellWaitingDependents(r, remaining - {x}, open);
      FinishedInTurn(old(inAnalysis.Keys), old(deeplyAnalyzed), inAnalysis1, deep1, inAnalysis.Keys, deeplyAnalyzed, first, rest);
      ProgressedInTurn(in0, in1, inAnalysis);
      AllDerivedInTurn(in0, in1, deep1, deeplyAnalyzed, first, rest);
      found := first + rest;
    }

    /** One waiting dependent of the deeply analyzed `r` is told; if that
        makes it deeply analyzed, it is finished in turn. */
    method DependeeAnalyzed(x: ArtifactCoordinates, r: ArtifactCoordinates, ghost open: Dependents,
                            ghost remaining: set<ArtifactCoordinates>)
      returns (found: seq<DeeplyAnalyzedArtifact>)
      requires Consistent(inAnalysis, deeplyAnalyzed, waiting, open[r := remaining], {}, {})
      requires r in deeplyAnalyzed && r !in waiting && x in remaining
      requires forall d :: d in open ==> d in deeplyAnalyzed
      modifies this
      ensures Consistent(inAnalysis, deeplyAnalyzed, waiting, open[r := remaining - {x}], {}, {})
      ensures waiting.Keys <= old(waiting.Keys)
      ensures Finished(old(inAnalysis.Keys), old(deeplyAnalyzed), inAnalysis.Keys, deeplyAnalyzed, found)
      ensures Progressed(old(inAnalysis), inAnalysis) && AllDerived(old(inAnalysis), deeplyAnalyzed, found)
      ensures |inAnalysis.Keys| <= old(|inAnalysis.Keys|)
      decreases |inAnalysis.Keys|, 1, 0
    {
      ghost var in0 := inAnalysis;
      NoteDependeeAnalyzed(x, r, open, remaining);
      ghost var keys, in1 := inAnalysis.Keys, inAnalysis;
      NoteProgresses(in0, in1, x, r);
      found := FinishIfDeeplyAnalyzed(x, open[r := remaining - {x}]);
      SubsetNoLarger(inAnalysis.Keys, keys);
      ProgressedInTurn(in0, in1, inAnalysis);
      AllDerivedEarlier(in0, in1, deeplyAnalyzed, found);
    }

    /** `dependeeAnalyzed` on the state of a dependent that waited for `r`. */
    method NoteDependeeAnalyzed(x: ArtifactCoordinates, r: ArtifactCoordinates, ghost open: Dependents,
                                ghost remaining: set<ArtifactCoordinates>)
      requires Consistent(inAnalysis, deeplyAnalyzed, waiting, open[r := remaining], {}, {})
      requires r in deeplyAnalyzed && r !in waiting && x in remaining
      requires forall d :: d in open ==> d in deeplyAnalyzed
      modifies this
      ensures x in inAnalysis && inAnalysis.Keys == old(inAnalysis.Keys)
      ensures r in old(inAnalysis)[x].dependeesToAnalyse
      ensures inAnalysis[x] == DependeeAnalyzedState(old(inAnalysis)[x], r).value
      ensures forall y :: y in inAnalysis && y != x ==> inAnalysis[y] == old(inAnalysis)[y]
      ensures deeplyAnalyzed == old(deeplyAnalyzed) && waiting == old(waiting)
      ensures Consistent(inAnalysis, deeplyAnalyzed, waiting, open[r := remaining - {x}], {x}, {})
      ensures forall d :: d in open[r := remaining - {x}] ==> d in deeplyAnalyzed
    {
      NoteKeepsConsistent(inAnalysis, deeplyAnalyzed, waiting, open, r, remaining, x);
      inAnalysis := inAnalysis[x := DependeeAnalyzedState(inAnalysis[x], r).value];
    }
  }
}
