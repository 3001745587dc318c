/** The "uses JDK internals" markers: an artifact's own finding, the
    transitive marker that combines it with the markers of its dependees,
    and the three-valued marker of the deep analysis. */
module Markers {
  import opened Wrappers

  /** `MarkInternalDependencies`: what jdeps found for the artifact alone. */
  datatype Own = UNKNOWN | NONE | DIRECT

  /** `MarkTransitiveInternalDependencies`: the artifact and its dependees. */
  datatype Transitive = UNKNOWN | NONE | INDIRECT | DIRECT

  /** `InternalDependencies` (identical in the `artifact` and the `analysis`
      packages). */
  datatype Internal = NONE | INDIRECT | DIRECT

  /** `from`: the same-named transitive marker. */
  function FromOwn(m: Own): (t: Transitive)
    ensures m.UNKNOWN? <==> t.UNKNOWN?
    ensures m.NONE? <==> t.NONE?
    ensures m.DIRECT? <==> t.DIRECT?
  {
    match m
    case UNKNOWN => Transitive.UNKNOWN
    case NONE => Transitive.NONE
    case DIRECT => Transitive.DIRECT
  }

  /** The priority `combineDependees` gives the transitive markers. */
  function Priority(t: Transitive): nat
  {
    match t
    case NONE => 0
    case UNKNOWN => 1
    case INDIRECT => 2
    case DIRECT => 3
  }

  /** `combineDependees`: DIRECT beats INDIRECT beats UNKNOWN beats NONE. */
  function CombineDependees(one: Transitive, other: Transitive): Transitive
  {
    if one.DIRECT? || other.DIRECT? then Transitive.DIRECT
    else if one.INDIRECT? || other.INDIRECT? then Transitive.INDIRECT
    else if one.UNKNOWN? || other.UNKNOWN? then Transitive.UNKNOWN
    else Transitive.NONE
  }

  /** `combineDependees` picks the marker of higher priority, so it is
      commutative, associative and has NONE as its identity. */
  lemma CombineDependeesIsMax(a: Transitive, b: Transitive, c: Transitive)
    ensures CombineDependees(a, b) == (if Priority(a) >= Priority(b) then a else b)
    ensures CombineDependees(a, b) == CombineDependees(b, a)
    ensures CombineDependees(CombineDependees(a, b), c) == CombineDependees(a, CombineDependees(b, c))
    ensures CombineDependees(Transitive.NONE, a) == a
  {
  }

  /** `dependees.reduce(NONE, combineDependees)` on a sequential stream. */
  function ReduceDependees(acc: Transitive, ms: seq<Transitive>): Transitive
    decreases |ms|
  {
    if ms == [] then acc else ReduceDependees(CombineDependees(acc, ms[0]), ms[1..])
  }

  /** The reduction from NONE yields the highest-priority marker present, or
      NONE for no dependees. */
  lemma {:induction false} ReduceDependeesIsMax(acc: Transitive, ms: seq<Transitive>)
    ensures var r := ReduceDependees(acc, ms);
      && (r.DIRECT? <==> acc.DIRECT? || Transitive.DIRECT in ms)
      && (r.INDIRECT? <==> !r.DIRECT? && (acc.INDIRECT? || Transitive.INDIRECT in ms))
      && (r.UNKNOWN? <==> !r.DIRECT? && !r.INDIRECT? && (acc.UNKNOWN? || Transitive.UNKNOWN in ms))
    decreases |ms|
  {
    if ms != [] {
      ReduceDependeesIsMax(CombineDependees(acc, ms[0]), ms[1..]);
      assert ms == [ms[0]] + ms[1..];
    }
  }

  /** The order in which dependees are reduced does not matter. */
  lemma ReduceDependeesOrderIndependent(ms: seq<Transitive>, ns: seq<Transitive>)
    requires multiset(ms) == multiset(ns)
    ensures ReduceDependees(Transitive.NONE, ms) == ReduceDependees(Transitive.NONE, ns)
  {
    ReduceDependeesIsMax(Transitive.NONE, ms);
    ReduceDependeesIsMax(Transitive.NONE, ns);
    assert forall t :: t in ms <==> t in multiset(ms);
    assert forall t :: t in ns <==> t in multiset(ns);
  }

  /** `forArtifactAndCombinedDependeeMarker`. */
  function ForArtifactAndCombined(m: Own, dependees: Transitive): Transitive
  {
    match m
    case UNKNOWN =>
      (match dependees
       case UNKNOWN => Transitive.UNKNOWN
       case NONE => Transitive.UNKNOWN
       case INDIRECT => Transitive.INDIRECT
       case DIRECT => Transitive.INDIRECT)
    case NONE =>
      (match dependees
       case UNKNOWN => Transitive.UNKNOWN
       case NONE => Transitive.NONE
       case INDIRECT => Transitive.INDIRECT
       case DIRECT => Transitive.INDIRECT)
    case DIRECT => Transitive.DIRECT
  }

  /** `forUnresolvedDependees`. */
  function ForUnresolved(m: Own): Transitive
  {
    match m
    case UNKNOWN => Transitive.UNKNOWN
    case NONE => Transitive.UNKNOWN
    case DIRECT => Transitive.DIRECT
  }

  /** `fromDependees`: `dependees` is None when dependee resolution failed,
      and otherwise the dependees' transitive markers. */
  function FromDependees(m: Own, dependees: Option<seq<Transitive>>): Transitive
  {
    match dependees
    case Some(ms) => ForArtifactAndCombined(m, ReduceDependees(Transitive.NONE, ms))
    case None => ForUnresolved(m)
  }

  /** Failed resolution: DIRECT stays DIRECT, anything else is UNKNOWN. */
  lemma FromDependeesUnresolved(m: Own)
    ensures FromDependees(m, None) == (if m.DIRECT? then Transitive.DIRECT else Transitive.UNKNOWN)
  {
  }

  /** Resolved but no dependees: the own marker, carried over. */
  lemma FromDependeesNoDependees(m: Own)
    ensures FromDependees(m, Some([])) == FromOwn(m)
  {
  }

  /** The transitive marker is DIRECT exactly when the artifact itself is,
      whatever its dependees are. */
  lemma FromDependeesDirectIffOwnDirect(m: Own, dependees: Option<seq<Transitive>>)
    ensures FromDependees(m, dependees).DIRECT? <==> m.DIRECT?
  {
  }

  /** An artifact without findings of its own (NONE), with resolved dependees,
      is NONE when every dependee is NONE, INDIRECT when some dependee is
      INDIRECT or DIRECT, and UNKNOWN otherwise. */
  lemma OwnNoneResolved(ms: seq<Transitive>)
    ensures var r := FromDependees(Own.NONE, Some(ms));
      && (r.NONE? <==> forall k :: 0 <= k < |ms| ==> ms[k].NONE?)
      && (r.INDIRECT? <==> Transitive.INDIRECT in ms || Transitive.DIRECT in ms)
      && (r.UNKNOWN? <==> Transitive.UNKNOWN in ms && Transitive.INDIRECT !in ms && Transitive.DIRECT !in ms)
  {
    ReduceDependeesIsMax(Transitive.NONE, ms);
    if !(forall k :: 0 <= k < |ms| ==> ms[k].NONE?) {
      var k :| 0 <= k < |ms| && !ms[k].NONE?;
      assert ms[k] in ms;
    }
  }

  /** An artifact whose analysis failed (UNKNOWN), with resolved dependees,
      is INDIRECT when some dependee is INDIRECT or DIRECT, and UNKNOWN
      otherwise. */
  lemma OwnUnknownResolved(ms: seq<Transitive>)
    ensures var r := FromDependees(Own.UNKNOWN, Some(ms));
      && (r.INDIRECT? <==> Transitive.INDIRECT in ms || Transitive.DIRECT in ms)
      && (r.UNKNOWN? <==> Transitive.INDIRECT !in ms && Transitive.DIRECT !in ms)
  {
    ReduceDependeesIsMax(Transitive.NONE, ms);
  }

  /** `combineWithDependee` of either `InternalDependencies` enum. */
  function CombineWithDependee(self: Internal, other: Internal): Internal
  {
    if self.NONE? then
      (match other
       case NONE => Internal.NONE
       case INDIRECT => Internal.INDIRECT
       case DIRECT => Internal.INDIRECT)
    else self
  }

  function Rank(i: Internal): nat
  {
    match i
    case NONE => 0
    case INDIRECT => 1
    case DIRECT => 2
  }

  /** Combining never lowers the receiver in NONE < INDIRECT < DIRECT, never
      produces DIRECT from a receiver that is not DIRECT, and leaves a
      receiver other than NONE unchanged. */
  lemma CombineWithDependeeMonotone(self: Internal, other: Internal)
    ensures Rank(CombineWithDependee(self, other)) >= Rank(self)
    ensures CombineWithDependee(self, other).DIRECT? <==> self.DIRECT?
    ensures !self.NONE? ==> CombineWithDependee(self, other) == self
    ensures self.NONE? ==> (CombineWithDependee(self, other).NONE? <==> other.NONE?)
  {
  }

  /** Folding `combineWithDependee` over the dependees' markers. */
  function FoldWithDependees(acc: Internal, ms: seq<Internal>): Internal
    decreases |ms|
  {
    if ms == [] then acc else FoldWithDependees(CombineWithDependee(acc, ms[0]), ms[1..])
  }

  /** From NONE the fold gives NONE if every dependee is NONE and INDIRECT
      otherwise, never DIRECT; from DIRECT it stays DIRECT. */
  lemma {:induction false} FoldWithDependeesResult(acc: Internal, ms: seq<Internal>)
    ensures acc.DIRECT? ==> FoldWithDependees(acc, ms).DIRECT?
    ensures acc.NONE? ==>
      FoldWithDependees(acc, ms) == (if forall k :: 0 <= k < |ms| ==> ms[k].NONE? then Internal.NONE else Internal.INDIRECT)
    ensures acc.INDIRECT? ==> FoldWithDependees(acc, ms).INDIRECT?
    decreases |ms|
  {
    if ms != [] {
      var next := CombineWithDependee(acc, ms[0]);
      FoldWithDependeesResult(next, ms[1..]);
      if acc.NONE? && ms[0].NONE? {
        assert (forall k :: 0 <= k < |ms| ==> ms[k].NONE?) <==>
               (forall k :: 0 <= k < |ms[1..]| ==> ms[1..][k].NONE?);
      }
    }
  }
}
