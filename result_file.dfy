/** The result file: deeply analysed artifacts written one block of lines
    each (see ResultLines), read back into preliminary artifacts whose
    dependees are bare coordinates and markers, then finalised so that each
    dependee is the fully read artifact with those coordinates, and kept in
    a set ordered alphabetically by coordinates. */
module ResultFiles {
  import opened Wrappers
  import opened Strings
  import opened Coordinates
  import opened Markers
  import opened Violations
  import opened Artifacts
  import opened SortedSets
  import opened ResultLines

  /** The comparator key of `IdentifiesArtifact.alphabeticalOrder()`. */
  function Key(a: DeeplyAnalyzedArtifact): seq<string>
  {
    ArtifactKey(a.artifact)
  }

  // ---------------------------------------------------------------------
  // Writing

  /** The (dependent, internal type) pairs of one violation, in order. */
  function PairsOf(v: Violation): (ps: seq<(Type, Type)>)
    ensures |ps| == |v.internalDependencies|
    ensures forall k :: 0 <= k < |ps| ==> ps[k] == (v.dependent, v.internalDependencies[k])
  {
    seq(|v.internalDependencies|, k requires 0 <= k < |v.internalDependencies| =>
      (v.dependent, v.internalDependencies[k]))
  }

  /** The pairs of all violations, violation after violation. */
  function Pairs(vs: seq<Violation>): seq<(Type, Type)>
  {
    if vs == [] then [] else Pairs(vs[..|vs| - 1]) + PairsOf(vs[|vs| - 1])
  }

  function PairLines(ps: seq<(Type, Type)>): (lines: seq<string>)
    ensures |lines| == |ps|
    ensures forall k :: 0 <= k < |ps| ==> lines[k] == ViolationLine(ps[k].0, ps[k].1)
  {
    seq(|ps|, k requires 0 <= k < |ps| => ViolationLine(ps[k].0, ps[k].1))
  }

  function DependeeLines(ds: seq<DeeplyAnalyzedArtifact>): (lines: seq<string>)
    ensures |lines| == |ds|
    ensures forall k :: 0 <= k < |ds| ==> lines[k] == ArtifactLine(true, ds[k])
  {
    seq(|ds|, k requires 0 <= k < |ds| => ArtifactLine(true, ds[k]))
  }

  /** The block `writeArtifact` emits: the header, a line per internal
      dependency of each violation, a line per dependee. */
  function ArtifactLines(a: DeeplyAnalyzedArtifact): seq<string>
  {
    [ArtifactLine(false, a)] + PairLines(Pairs(a.violations)) + DependeeLines(a.dependees)
  }

  /** The whole file: the blocks of the artifacts in the set's order. */
  function FileLines(artifacts: seq<DeeplyAnalyzedArtifact>): seq<string>
  {
    if artifacts == [] then [] else ArtifactLines(artifacts[0]) + FileLines(artifacts[1..])
  }

  lemma PairLinesAppend(ps: seq<(Type, Type)>, qs: seq<(Type, Type)>)
    ensures PairLines(ps + qs) == PairLines(ps) + PairLines(qs)
  {
  }

  lemma {:induction false} FileLinesSnoc(artifacts: seq<DeeplyAnalyzedArtifact>, a: DeeplyAnalyzedArtifact)
    ensures FileLines(artifacts + [a]) == FileLines(artifacts) + ArtifactLines(a)
    decreases |artifacts|
  {
    if artifacts == [] {
      assert [a][1..] == [];
    } else {
      assert (artifacts + [a])[1..] == artifacts[1..] + [a];
      FileLinesSnoc(artifacts[1..], a);
    }
  }

  lemma FileLinesStep(all: seq<DeeplyAnalyzedArtifact>, i: nat)
    requires i < |all|
    ensures FileLines(all[..i + 1]) == FileLines(all[..i]) + ArtifactLines(all[i])
  {
    assert all[..i + 1] == all[..i] + [all[i]];
    FileLinesSnoc(all[..i], all[i]);
  }

  /** The lines of one violation: one per internal dependency. */
  method WriteViolation(v: Violation) returns (lines: seq<string>)
    ensures lines == PairLines(PairsOf(v))
  {
    lines := [];
    for j := 0 to |v.internalDependencies|
      invariant lines == PairLines(PairsOf(v)[..j])
    {
      assert PairsOf(v)[..j + 1] == PairsOf(v)[..j] + [(v.dependent, v.internalDependencies[j])];
      PairLinesAppend(PairsOf(v)[..j], [(v.dependent, v.internalDependencies[j])]);
      lines := lines + [ViolationLine(v.dependent, v.internalDependencies[j])];
    }
    assert PairsOf(v)[..|v.internalDependencies|] == PairsOf(v);
  }

  /** The violation lines of an artifact, violation after violation. */
  method WriteViolations(vs: seq<Violation>) returns (lines: seq<string>)
    ensures lines == PairLines(Pairs(vs))
  {
    lines := [];
    for i := 0 to |vs|
      invariant lines == PairLines(Pairs(vs[..i]))
    {
      var more := WriteViolation(vs[i]);
      assert vs[..i + 1][..i] == vs[..i];
      PairLinesAppend(Pairs(vs[..i]), PairsOf(vs[i]));
      lines := lines + more;
    }
    assert vs[..|vs|] == vs;
  }

  /** `writeArtifact`: the header, then for each violation and each of its
      internal dependencies a violation line, then a line per dependee. */
  method WriteArtifact(a: DeeplyAnalyzedArtifact) returns (lines: seq<string>)
    ensures lines == ArtifactLines(a)
  {
    var violationLines := WriteViolations(a.violations);
    lines := [ArtifactLine(false, a)] + violationLines;
    var ds := a.dependees;
    for k := 0 to |ds|
      invariant lines == [ArtifactLine(false, a)] + violationLines + DependeeLines(ds[..k])
    {
      assert DependeeLines(ds[..k + 1]) == DependeeLines(ds[..k]) + [ArtifactLine(true, ds[k])];
      lines := lines + [ArtifactLine(true, ds[k])];
    }
    assert ds[..|ds|] == ds;
  }

  // ---------------------------------------------------------------------
  // Regrouping violation lines

  /** The dependents of the pairs in the order they first appear: the keys
      of the multimap the reader fills. */
  function DependentsOf(ps: seq<(Type, Type)>): seq<Type>
  {
    if ps == [] then []
    else
      var ds := DependentsOf(ps[..|ps| - 1]);
      if ps[|ps| - 1].0 in ds then ds else ds + [ps[|ps| - 1].0]
  }

  /** The internal types paired with `d`, first appearances only: the
      multimap's value set for `d`. */
  function InternalsOf(ps: seq<(Type, Type)>, d: Type): seq<Type>
  {
    if ps == [] then []
    else
      var xs := InternalsOf(ps[..|ps| - 1], d);
      var p := ps[|ps| - 1];
      if p.0 == d && p.1 !in xs then xs + [p.1] else xs
  }

  /** Every dependent has at least one internal type. */
  lemma {:induction false} InternalsOfDependents(ps: seq<(Type, Type)>)
    ensures forall d :: d in DependentsOf(ps) ==> InternalsOf(ps, d) != []
  {
    if ps != [] {
      InternalsOfDependents(ps[..|ps| - 1]);
    }
  }

  /** `createArtifact`'s violations: one per dependent, built from the
      internal types recorded for it. */
  function Group(ps: seq<(Type, Type)>): seq<Violation>
  {
    var ds := DependentsOf(ps);
    seq(|ds|, k requires 0 <= k < |ds| => Violation(ds[k], Sort(InternalsOf(ps, ds[k]))))
  }

  /** Each grouped violation is what `Violation.buildFor` makes of a
      dependent and the internal types recorded for it. */
  lemma GroupBuildsViolations(ps: seq<(Type, Type)>)
    ensures |Group(ps)| == |DependentsOf(ps)|
    ensures forall k :: 0 <= k < |Group(ps)| ==>
      BuildFor(DependentsOf(ps)[k], InternalsOf(ps, DependentsOf(ps)[k])) == Ok(Group(ps)[k])
  {
    InternalsOfDependents(ps);
  }

  function Dependents(vs: seq<Violation>): (ds: seq<Type>)
    ensures |ds| == |vs| && forall k :: 0 <= k < |vs| ==> ds[k] == vs[k].dependent
  {
    seq(|vs|, k requires 0 <= k < |vs| => vs[k].dependent)
  }

  predicate Distinct<T(==)>(xs: seq<T>)
  {
    forall i, j :: 0 <= i < j < |xs| ==> xs[i] != xs[j]
  }

  /** Violations as the reader rebuilds them: distinct dependents, each with
      a non-empty ascending list of distinct internal types. */
  ghost predicate ViolationsReadable(vs: seq<Violation>)
  {
    && Distinct(Dependents(vs))
    && forall k :: 0 <= k < |vs| ==>
         && vs[k].internalDependencies != []
         && Ordered(vs[k].internalDependencies)
         && Distinct(vs[k].internalDependencies)
  }

  lemma PairsOfSnoc(d: Type, xs: seq<Type>, x: Type)
    ensures PairsOf(Violation(d, xs + [x])) == PairsOf(Violation(d, xs)) + [(d, x)]
  {
  }

  /** A block of pairs of one dependent adds it to the dependents once. */
  lemma {:induction false} DependentsOfBlock(ps: seq<(Type, Type)>, d: Type, xs: seq<Type>)
    requires xs != [] && d !in DependentsOf(ps)
    ensures DependentsOf(ps + PairsOf(Violation(d, xs))) == DependentsOf(ps) + [d]
    decreases |xs|
  {
    var init := xs[..|xs| - 1];
    var x := xs[|xs| - 1];
    assert xs == init + [x];
    PairsOfSnoc(d, init, x);
    var qs := ps + PairsOf(Violation(d, init));
    assert ps + PairsOf(Violation(d, xs)) == qs + [(d, x)];
    assert (qs + [(d, x)])[..|qs|] == qs;
    if init == [] {
      assert qs == ps;
    } else {
      DependentsOfBlock(ps, d, init);
    }
  }

  lemma {:induction false} DependentsOfPairs(vs: seq<Violation>)
    requires ViolationsReadable(vs)
    ensures DependentsOf(Pairs(vs)) == Dependents(vs)
    decreases |vs|
  {
    if vs != [] {
      var init := vs[..|vs| - 1];
      var v := vs[|vs| - 1];
      assert ViolationsReadable(init) by {
        forall i, j | 0 <= i < j < |init| ensures Dependents(init)[i] != Dependents(init)[j] {
          assert Dependents(vs)[i] != Dependents(vs)[j];
        }
        forall k | 0 <= k < |init| ensures init[k] == vs[k] { }
      }
      DependentsOfPairs(init);
      assert v.internalDependencies != [];
      assert v.dependent !in Dependents(init) by {
        forall k | 0 <= k < |init| ensures Dependents(init)[k] != v.dependent {
          assert Dependents(vs)[k] != Dependents(vs)[|vs| - 1];
        }
      }
      assert v == Violation(v.dependent, v.internalDependencies);
      DependentsOfBlock(Pairs(init), v.dependent, v.internalDependencies);
      assert Dependents(vs) == Dependents(init) + [v.dependent];
    }
  }

  /** Pairs of another dependent leave the internal types of `d` alone. */
  lemma {:induction false} InternalsOfOther(ps: seq<(Type, Type)>, e: Type, xs: seq<Type>, d: Type)
    requires e != d
    ensures InternalsOf(ps + PairsOf(Violation(e, xs)), d) == InternalsOf(ps, d)
    decreases |xs|
  {
    if xs == [] {
      assert ps + PairsOf(Violation(e, xs)) == ps;
    } else {
      var init := xs[..|xs| - 1];
      assert xs == init + [xs[|xs| - 1]];
      PairsOfSnoc(e, init, xs[|xs| - 1]);
      var qs := ps + PairsOf(Violation(e, init));
      assert ps + PairsOf(Violation(e, xs)) == qs + [(e, xs[|xs| - 1])];
      assert (qs + [(e, xs[|xs| - 1])])[..|qs|] == qs;
      InternalsOfOther(ps, e, init, d);
    }
  }

  /** The first block of `d`'s pairs gives its internal types as listed. */
  lemma {:induction false} InternalsOfBlock(ps: seq<(Type, Type)>, d: Type, xs: seq<Type>)
    requires InternalsOf(ps, d) == [] && Distinct(xs)
    ensures InternalsOf(ps + PairsOf(Violation(d, xs)), d) == xs
    decreases |xs|
  {
    if xs == [] {
      assert ps + PairsOf(Violation(d, xs)) == ps;
    } else {
      var init := xs[..|xs| - 1];
      var x := xs[|xs| - 1];
      assert xs == init + [x];
      PairsOfSnoc(d, init, x);
      var qs := ps + PairsOf(Violation(d, init));
      assert ps + PairsOf(Violation(d, xs)) == qs + [(d, x)];
      assert (qs + [(d, x)])[..|qs|] == qs;
      InternalsOfBlock(ps, d, init);
      assert x !in init by {
        forall k | 0 <= k < |init| ensures init[k] != x {
          assert xs[k] != xs[|xs| - 1];
        }
      }
    }
  }

  /** Violations that do not hold `d` give it no internal types. */
  lemma {:induction false} InternalsOfPairsAbsent(vs: seq<Violation>, d: Type)
    requires d !in Dependents(vs)
    ensures InternalsOf(Pairs(vs), d) == []
    decreases |vs|
  {
    if vs != [] {
      var init := vs[..|vs| - 1];
      var v := vs[|vs| - 1];
      assert v.dependent != d by {
        assert Dependents(vs)[|vs| - 1] == v.dependent;
      }
      assert d !in Dependents(init) by {
        forall k | 0 <= k < |init| ensures Dependents(init)[k] != d {
          assert Dependents(init)[k] == Dependents(vs)[k];
        }
      }
      InternalsOfPairsAbsent(init, d);
      assert v == Violation(v.dependent, v.internalDependencies);
      InternalsOfOther(Pairs(init), v.dependent, v.internalDependencies, d);
    }
  }

  /** The violation at `k` gets back exactly its own internal types. */
  lemma {:induction false} InternalsOfPairsAt(vs: seq<Violation>, k: nat)
    requires k < |vs| && ViolationsReadable(vs)
    ensures InternalsOf(Pairs(vs), vs[k].dependent) == vs[k].internalDependencies
    decreases |vs|
  {
    var init := vs[..|vs| - 1];
    var v := vs[|vs| - 1];
    var d := vs[k].dependent;
    assert v == Violation(v.dependent, v.internalDependencies);
    if k == |vs| - 1 {
      assert d !in Dependents(init) by {
        forall i | 0 <= i < |init| ensures Dependents(init)[i] != d {
          assert Dependents(vs)[i] != Dependents(vs)[|vs| - 1];
        }
      }
      InternalsOfPairsAbsent(init, d);
      InternalsOfBlock(Pairs(init), d, v.internalDependencies);
    } else {
      assert v.dependent != d by {
        assert Dependents(vs)[k] != Dependents(vs)[|vs| - 1];
      }
      assert ViolationsReadable(init) by {
        forall i, j | 0 <= i < j < |init| ensures Dependents(init)[i] != Dependents(init)[j] {
          assert Dependents(vs)[i] != Dependents(vs)[j];
        }
        forall i | 0 <= i < |init| ensures init[i] == vs[i] { }
      }
      InternalsOfPairsAt(init, k);
      InternalsOfOther(Pairs(init), v.dependent, v.internalDependencies, d);
    }
  }

  /** Reading back the violation lines of readable violations rebuilds the
      same violations in the same order. */
  lemma GroupPairs(vs: seq<Violation>)
    requires ViolationsReadable(vs)
    ensures Group(Pairs(vs)) == vs
  {
    DependentsOfPairs(vs);
    var g := Group(Pairs(vs));
    forall k | 0 <= k < |vs| ensures g[k] == vs[k] {
      InternalsOfPairsAt(vs, k);
      BuildForOrderIrrelevant(vs[k].dependent, vs[k].internalDependencies, vs[k].internalDependencies);
    }
  }

  // ---------------------------------------------------------------------
  // Reading

  /** `ImmutableSet.copyOf` of the dependees: artifacts are equal when their
      coordinates are, so an artifact whose coordinates came before is
      dropped and the first one kept. */
  function UniqueByCoordinates(ds: seq<DeeplyAnalyzedArtifact>): seq<DeeplyAnalyzedArtifact>
  {
    if ds == [] then []
    else
      var r := UniqueByCoordinates(ds[..|ds| - 1]);
      var d := ds[|ds| - 1];
      if d.artifact in CoordinatesOf(r) then r else r + [d]
  }

  /** The kept dependees have distinct coordinates, come from the list, and
      cover every coordinate in it. */
  lemma {:induction false} UniqueByCoordinatesSpec(ds: seq<DeeplyAnalyzedArtifact>)
    ensures Distinct(CoordinatesOf(UniqueByCoordinates(ds)))
    ensures forall e :: e in UniqueByCoordinates(ds) ==> e in ds
    ensures forall d :: d in ds ==> d.artifact in CoordinatesOf(UniqueByCoordinates(ds))
    decreases |ds|
  {
    if ds != [] {
      var init := ds[..|ds| - 1];
      var d := ds[|ds| - 1];
      var r := UniqueByCoordinates(init);
      UniqueByCoordinatesSpec(init);
      assert forall e :: e in init ==> e in ds;
      assert ds == init + [d];
      if d.artifact !in CoordinatesOf(r) {
        assert CoordinatesOf(r + [d]) == CoordinatesOf(r) + [d.artifact];
      }
    }
  }

  lemma UniqueByCoordinatesSnoc(ds: seq<DeeplyAnalyzedArtifact>, d: DeeplyAnalyzedArtifact)
    requires d.artifact !in CoordinatesOf(UniqueByCoordinates(ds))
    ensures UniqueByCoordinates(ds + [d]) == UniqueByCoordinates(ds) + [d]
  {
    assert (ds + [d])[..|ds|] == ds;
  }

  lemma {:induction false} UniqueByCoordinatesOfDistinct(ds: seq<DeeplyAnalyzedArtifact>)
    requires Distinct(CoordinatesOf(ds))
    ensures UniqueByCoordinates(ds) == ds
    decreases |ds|
  {
    if ds != [] {
      var init := ds[..|ds| - 1];
      var d := ds[|ds| - 1];
      var cs := CoordinatesOf(ds);
      assert Distinct(CoordinatesOf(init)) by {
        forall i, j | 0 <= i < j < |init| ensures CoordinatesOf(init)[i] != CoordinatesOf(init)[j] {
          assert cs[i] != cs[j];
        }
      }
      UniqueByCoordinatesOfDistinct(init);
      assert d.artifact !in CoordinatesOf(init) by {
        forall k | 0 <= k < |init| ensures CoordinatesOf(init)[k] != d.artifact {
          assert cs[k] != cs[|ds| - 1];
        }
      }
      UniqueByCoordinatesSnoc(init, d);
      assert init + [d] == ds;
    }
  }

  /** What a dependee line reads back as: coordinates and marker only. */
  function Stub(d: DeeplyAnalyzedArtifact): DeeplyAnalyzedArtifact
  {
    DeeplyAnalyzedArtifact(d.artifact, d.marker, [], [])
  }

  function Stubs(ds: seq<DeeplyAnalyzedArtifact>): (r: seq<DeeplyAnalyzedArtifact>)
    ensures |r| == |ds| && forall k :: 0 <= k < |ds| ==> r[k] == Stub(ds[k])
  {
    seq(|ds|, k requires 0 <= k < |ds| => Stub(ds[k]))
  }

  /** `createArtifact` for a begun artifact. */
  function CreateArtifact(
    c: ArtifactCoordinates, m: Internal, ps: seq<(Type, Type)>, ds: seq<DeeplyAnalyzedArtifact>)
    : DeeplyAnalyzedArtifact
  {
    DeeplyAnalyzedArtifact(c, m, Group(ps), UniqueByCoordinates(ds))
  }

  /** The reader's local state between two lines: the coordinates and
      marker of the artifact begun by the last header (none before the
      first), the violation pairs and dependees read since, and the
      preliminary artifacts completed so far. */
  datatype Reader = Reader(
    current: Option<(ArtifactCoordinates, Internal)>,
    violations: seq<(Type, Type)>,
    dependees: seq<DeeplyAnalyzedArtifact>,
    preliminary: map<ArtifactCoordinates, DeeplyAnalyzedArtifact>)

  const Start := Reader(None, [], [], map[])

  /** The preliminary artifacts once the begun artifact, if any, is created
      and put under its coordinates. */
  function Flushed(r: Reader): map<ArtifactCoordinates, DeeplyAnalyzedArtifact>
  {
    match r.current
    case None => r.preliminary
    case Some(h) => r.preliminary[h.0 := CreateArtifact(h.0, h.1, r.violations, r.dependees)]
  }

  /** What one line holds, once the read loop has taken it apart. */
  datatype LineContent =
    | PairLine(pair: (Type, Type))
    | DependeeLine(dependee: DeeplyAnalyzedArtifact)
    | HeaderLine(artifact: ArtifactCoordinates, marker: Internal)

  /** The branches of the read loop: a line with the violation prefix is a
      violation pair, one with the dependee prefix a dependee, any other
      line the header of a new artifact. */
  function ParseLine(line: string): (r: Result<LineContent>)
    ensures r.Ok? ==> (r.value.PairLine? <==> StartsWith(line, ViolationLinePrefix))
    ensures r.Ok? && r.value.DependeeLine? ==> StartsWith(line, DependencyLinePrefix)
    ensures r.Ok? && r.value.DependeeLine? ==> r.value.dependee.violations == [] && r.value.dependee.dependees == []
  {
    if StartsWith(line, ViolationLinePrefix) then
      var pair :- ParseViolationLine(line);
      Ok(PairLine(pair))
    else if StartsWith(line, DependencyLinePrefix) then
      var dependee :- ParseDependencyLine(line);
      Ok(DependeeLine(dependee))
    else
      var c :- ParseArtifactString(line);
      var m :- ParseMarkerString(line);
      Ok(HeaderLine(c, m))
  }

  function ParseLines(lines: seq<string>): (r: seq<Result<LineContent>>)
    ensures |r| == |lines| && forall k :: 0 <= k < |lines| ==> r[k] == ParseLine(lines[k])
  {
    seq(|lines|, k requires 0 <= k < |lines| => ParseLine(lines[k]))
  }

  /** One turn of the read loop: a pair or a dependee is added to the begun
      artifact, a header flushes it and begins the next. */
  function Step(r: Reader, content: LineContent): Reader
  {
    match content
    case PairLine(pair) => r.(violations := r.violations + [pair])
    case DependeeLine(d) => r.(dependees := r.dependees + [d])
    case HeaderLine(c, m) => Reader(Some((c, m)), [], [], Flushed(r))
  }

  /** The read loop over the lines' contents; the first line that does not
      parse ends it with its exception. */
  function ReadFrom(r: Reader, contents: seq<Result<LineContent>>): Result<Reader>
    decreases |contents|
  {
    if contents == [] then Ok(r)
    else
      var content :- contents[0];
      ReadFrom(Step(r, content), contents[1..])
  }

  /** `parsePreliminaryArtifacts`: read every line, then flush the last
      artifact. */
  function Preliminary(lines: seq<string>): Result<map<ArtifactCoordinates, DeeplyAnalyzedArtifact>>
  {
    var r :- ReadFrom(Start, ParseLines(lines));
    Ok(Flushed(r))
  }

  lemma ReadFromStep(r: Reader, contents: seq<Result<LineContent>>, i: nat)
    requires i < |contents|
    ensures contents[i].Err? ==> ReadFrom(r, contents[i..]) == Err(contents[i].error)
    ensures contents[i].Ok? ==> ReadFrom(r, contents[i..]) == ReadFrom(Step(r, contents[i].value), contents[i + 1..])
  {
    assert contents[i..][0] == contents[i];
    assert contents[i..][1..] == contents[i + 1..];
  }

  /** The read loop of `parsePreliminaryArtifacts`, over the file's lines. */
  method ParsePreliminaryArtifacts(lines: seq<string>)
    returns (result: Result<map<ArtifactCoordinates, DeeplyAnalyzedArtifact>>)
    ensures result == Preliminary(lines)
  {
    var preliminary: map<ArtifactCoordinates, DeeplyAnalyzedArtifact> := map[];
    var current: Option<(ArtifactCoordinates, Internal)> := None;
    var violations: seq<(Type, Type)> := [];
    var dependees: seq<DeeplyAnalyzedArtifact> := [];
    ghost var contents := ParseLines(lines);
    for i := 0 to |lines|
      invariant ReadFrom(Start, contents) == ReadFrom(Reader(current, violations, dependees, preliminary), contents[i..])
    {
      var line := lines[i];
      ReadFromStep(Reader(current, violations, dependees, preliminary), contents, i);
      if StartsWith(line, ViolationLinePrefix) {
        var pair := ParseViolationLine(line);
        if pair.Err? {
          return Err(pair.error);
        }
        violations := violations + [pair.value];
      } else if StartsWith(line, DependencyLinePrefix) {
        var dependee := ParseDependencyLine(line);
        if dependee.Err? {
          return Err(dependee.error);
        }
        dependees := dependees + [dependee.value];
      } else {
        if current.Some? {
          preliminary := preliminary[current.value.0 := CreateArtifact(current.value.0, current.value.1, violations, dependees)];
        }
        var c := ParseArtifactString(line);
        if c.Err? {
          return Err(c.error);
        }
        var m := ParseMarkerString(line);
        if m.Err? {
          return Err(m.error);
        }
        current := Some((c.value, m.value));
        violations := [];
        dependees := [];
      }
    }
    if current.Some? {
      preliminary := preliminary[current.value.0 := CreateArtifact(current.value.0, current.value.1, violations, dependees)];
    }
    return Ok(preliminary);
  }

  // ---------------------------------------------------------------------
  // Reading back what was written

  /** Every line of the artifact's block reads back: no coordinates or type
      names holding the characters the format separates with. */
  predicate ArtifactWritable(a: DeeplyAnalyzedArtifact)
  {
    && CoordinatesWritable(a.artifact)
    && (forall p :: p in Pairs(a.violations) ==> TypeWritable(p.0) && TypeWritable(p.1))
    && (forall d :: d in a.dependees ==> CoordinatesWritable(d.artifact))
  }

  function PairContents(ps: seq<(Type, Type)>): (r: seq<Result<LineContent>>)
    ensures |r| == |ps| && forall k :: 0 <= k < |ps| ==> r[k] == Ok(PairLine(ps[k]))
  {
    seq(|ps|, k requires 0 <= k < |ps| => Ok(PairLine(ps[k])))
  }

  function StubContents(ds: seq<DeeplyAnalyzedArtifact>): (r: seq<Result<LineContent>>)
    ensures |r| == |ds| && forall k :: 0 <= k < |ds| ==> r[k] == Ok(DependeeLine(Stub(ds[k])))
  {
    seq(|ds|, k requires 0 <= k < |ds| => Ok(DependeeLine(Stub(ds[k]))))
  }

  /** The contents of an artifact's block as the reader sees them. */
  function BlockContents(a: DeeplyAnalyzedArtifact): seq<Result<LineContent>>
  {
    [Ok(HeaderLine(a.artifact, a.marker))] + PairContents(Pairs(a.violations)) + StubContents(a.dependees)
  }

  function FileContents(artifacts: seq<DeeplyAnalyzedArtifact>): seq<Result<LineContent>>
  {
    if artifacts == [] then [] else BlockContents(artifacts[0]) + FileContents(artifacts[1..])
  }

  lemma ParseLinesAppend(xs: seq<string>, ys: seq<string>)
    ensures ParseLines(xs + ys) == ParseLines(xs) + ParseLines(ys)
  {
  }

  lemma ParsePairLine(line: string, pair: (Type, Type))
    requires StartsWith(line, ViolationLinePrefix) && ParseViolationLine(line) == Ok(pair)
    ensures ParseLine(line) == Ok(PairLine(pair))
  {
  }

  lemma ParseDependeeLine(line: string, d: DeeplyAnalyzedArtifact)
    requires !StartsWith(line, ViolationLinePrefix) && StartsWith(line, DependencyLinePrefix)
    requires ParseDependencyLine(line) == Ok(d)
    ensures ParseLine(line) == Ok(DependeeLine(d))
  {
  }

  lemma ParseHeaderLine(line: string, c: ArtifactCoordinates, m: Internal)
    requires !StartsWith(line, ViolationLinePrefix) && !StartsWith(line, DependencyLinePrefix)
    requires ParseArtifactString(line) == Ok(c) && ParseMarkerString(line) == Ok(m)
    ensures ParseLine(line) == Ok(HeaderLine(c, m))
  {
  }

  lemma ParsePairLines(ps: seq<(Type, Type)>)
    requires forall p :: p in ps ==> TypeWritable(p.0) && TypeWritable(p.1)
    ensures ParseLines(PairLines(ps)) == PairContents(ps)
  {
    forall k | 0 <= k < |ps| ensures ParseLines(PairLines(ps))[k] == PairContents(ps)[k] {
      ViolationLineRoundTrip(ps[k].0, ps[k].1);
      ParsePairLine(PairLines(ps)[k], ps[k]);
    }
  }

  lemma ParseDependeeLines(ds: seq<DeeplyAnalyzedArtifact>)
    requires forall d :: d in ds ==> CoordinatesWritable(d.artifact)
    ensures ParseLines(DependeeLines(ds)) == StubContents(ds)
  {
    forall k | 0 <= k < |ds| ensures ParseLines(DependeeLines(ds))[k] == StubContents(ds)[k] {
      DependencyLineRoundTrip(ds[k]);
      ParseDependeeLine(DependeeLines(ds)[k], Stub(ds[k]));
    }
  }

  lemma ParseLinesSingle(line: string)
    ensures ParseLines([line]) == [ParseLine(line)]
  {
  }

  lemma ParseBlockLines(
    header: string, pairLines: seq<string>, dependeeLines: seq<string>,
    h: Result<LineContent>, ps: seq<Result<LineContent>>, ds: seq<Result<LineContent>>)
    requires ParseLine(header) == h && ParseLines(pairLines) == ps && ParseLines(dependeeLines) == ds
    ensures ParseLines([header] + pairLines + dependeeLines) == [h] + ps + ds
  {
    ParseLinesAppend([header] + pairLines, dependeeLines);
    ParseLinesAppend([header], pairLines);
    ParseLinesSingle(header);
  }

  lemma ParseArtifactLines(a: DeeplyAnalyzedArtifact)
    requires ArtifactWritable(a)
    ensures ParseLines(ArtifactLines(a)) == BlockContents(a)
  {
    HeaderRoundTrip(a);
    ParseHeaderLine(ArtifactLine(false, a), a.artifact, a.marker);
    ParsePairLines(Pairs(a.violations));
    ParseDependeeLines(a.dependees);
    ParseBlockLines(ArtifactLine(false, a), PairLines(Pairs(a.violations)), DependeeLines(a.dependees),
      Ok(HeaderLine(a.artifact, a.marker)), PairContents(Pairs(a.violations)), StubContents(a.dependees));
  }

  lemma {:induction false} ParseFileLines(artifacts: seq<DeeplyAnalyzedArtifact>)
    requires forall a :: a in artifacts ==> ArtifactWritable(a)
    ensures ParseLines(FileLines(artifacts)) == FileContents(artifacts)
    decreases |artifacts|
  {
    if artifacts != [] {
      ParseLinesAppend(ArtifactLines(artifacts[0]), FileLines(artifacts[1..]));
      ParseArtifactLines(artifacts[0]);
      assert forall a :: a in artifacts[1..] ==> a in artifacts;
      ParseFileLines(artifacts[1..]);
    }
  }

  lemma Regroup<T>(h: T, xs: seq<T>, ys: seq<T>, rest: seq<T>)
    ensures [h] + xs + ys + rest == [h] + (xs + (ys + rest))
  {
  }

  lemma ReadFromCons(r: Reader, content: LineContent, rest: seq<Result<LineContent>>)
    ensures ReadFrom(r, [Ok(content)] + rest) == ReadFrom(Step(r, content), rest)
  {
    assert ([Ok(content)] + rest)[1..] == rest;
  }

  lemma ConsAppend<T>(x: T, xs: seq<T>, rest: seq<T>)
    ensures [x] + xs + rest == [x] + (xs + rest)
  {
  }

  lemma AppendFront<T>(a: seq<T>, s: seq<T>)
    requires s != []
    ensures a + [s[0]] + s[1..] == a + s
  {
    assert [s[0]] + s[1..] == s;
  }

  lemma PairContentsCons(ps: seq<(Type, Type)>)
    requires ps != []
    ensures PairContents(ps) == [Ok(PairLine(ps[0]))] + PairContents(ps[1..])
  {
  }

  lemma StubContentsCons(ds: seq<DeeplyAnalyzedArtifact>)
    requires ds != []
    ensures StubContents(ds) == [Ok(DependeeLine(Stub(ds[0])))] + StubContents(ds[1..])
  {
    var tail := StubContents(ds[1..]);
    forall k | 0 <= k < |ds| ensures StubContents(ds)[k] == ([Ok(DependeeLine(Stub(ds[0])))] + tail)[k] {
      if k > 0 {
        assert ds[1..][k - 1] == ds[k];
      }
    }
  }

  lemma StubsCons(ds: seq<DeeplyAnalyzedArtifact>)
    requires ds != []
    ensures Stubs(ds) == [Stub(ds[0])] + Stubs(ds[1..])
  {
    var tail := Stubs(ds[1..]);
    forall k | 0 <= k < |ds| ensures Stubs(ds)[k] == ([Stub(ds[0])] + tail)[k] {
      if k > 0 {
        assert ds[1..][k - 1] == ds[k];
      }
    }
  }

  lemma AppendCons<T>(a: seq<T>, x: T, rest: seq<T>, whole: seq<T>)
    requires whole == [x] + rest
    ensures a + [x] + rest == a + whole
  {
  }

  /** One pair taken off the front, given what the rest reads as. */
  lemma ReadPairContentsStep(r: Reader, ps: seq<(Type, Type)>, rest: seq<Result<LineContent>>)
    requires ps != []
    requires ReadFrom(r.(violations := r.violations + [ps[0]]), PairContents(ps[1..]) + rest)
          == ReadFrom(r.(violations := r.violations + [ps[0]] + ps[1..]), rest)
    ensures ReadFrom(r, PairContents(ps) + rest) == ReadFrom(r.(violations := r.violations + ps), rest)
  {
    PairContentsCons(ps);
    ConsAppend(Ok(PairLine(ps[0])), PairContents(ps[1..]), rest);
    ReadFromCons(r, PairLine(ps[0]), PairContents(ps[1..]) + rest);
    AppendFront(r.violations, ps);
  }

  lemma {:induction false} ReadPairContents(r: Reader, ps: seq<(Type, Type)>, rest: seq<Result<LineContent>>)
    ensures ReadFrom(r, PairContents(ps) + rest) == ReadFrom(r.(violations := r.violations + ps), rest)
    decreases |ps|
  {
    if ps == [] {
      assert PairContents(ps) + rest == rest;
      assert r.(violations := r.violations + ps) == r;
    } else {
      ReadPairContents(r.(violations := r.violations + [ps[0]]), ps[1..], rest);
      ReadPairContentsStep(r, ps, rest);
    }
  }

  lemma StepDependee(r: Reader, d: DeeplyAnalyzedArtifact)
    ensures Step(r, DependeeLine(d)) == r.(dependees := r.dependees + [d])
  {
  }

  /** One dependee taken off the front, given what the rest reads as. */
  lemma ReadStubContentsStep(r: Reader, ds: seq<DeeplyAnalyzedArtifact>, rest: seq<Result<LineContent>>)
    requires ds != []
    requires ReadFrom(r.(dependees := r.dependees + [Stub(ds[0])]), StubContents(ds[1..]) + rest)
          == ReadFrom(r.(dependees := r.dependees + [Stub(ds[0])] + Stubs(ds[1..])), rest)
    ensures ReadFrom(r, StubContents(ds) + rest) == ReadFrom(r.(dependees := r.dependees + Stubs(ds)), rest)
  {
    var x := DependeeLine(Stub(ds[0]));
    StepDependee(r, Stub(ds[0]));
    StubContentsCons(ds);
    ConsAppend(Ok(x), StubContents(ds[1..]), rest);
    ReadFromCons(r, x, StubContents(ds[1..]) + rest);
    StubsCons(ds);
    AppendCons(r.dependees, Stub(ds[0]), Stubs(ds[1..]), Stubs(ds));
  }

  lemma {:induction false} ReadStubContents(r: Reader, ds: seq<DeeplyAnalyzedArtifact>, rest: seq<Result<LineContent>>)
    ensures ReadFrom(r, StubContents(ds) + rest) == ReadFrom(r.(dependees := r.dependees + Stubs(ds)), rest)
    decreases |ds|
  {
    if ds == [] {
      assert StubContents(ds) + rest == rest;
      assert r.(dependees := r.dependees + Stubs(ds)) == r;
    } else {
      ReadStubContents(r.(dependees := r.dependees + [Stub(ds[0])]), ds[1..], rest);
      ReadStubContentsStep(r, ds, rest);
    }
  }

  /** The reader after the block of `a`: `a` begun, with its pairs and its
      dependees as stubs. */
  function AfterArtifact(r: Reader, a: DeeplyAnalyzedArtifact): Reader
  {
    Reader(Some((a.artifact, a.marker)), Pairs(a.violations), Stubs(a.dependees), Flushed(r))
  }

  lemma ReadBlock(r: Reader, a: DeeplyAnalyzedArtifact, rest: seq<Result<LineContent>>)
    ensures ReadFrom(r, BlockContents(a) + rest) == ReadFrom(AfterArtifact(r, a), rest)
  {
    var ps := PairContents(Pairs(a.violations));
    var ds := StubContents(a.dependees);
    Regroup(Ok(HeaderLine(a.artifact, a.marker)), ps, ds, rest);
    ReadFromCons(r, HeaderLine(a.artifact, a.marker), ps + (ds + rest));
    var begun := Reader(Some((a.artifact, a.marker)), [], [], Flushed(r));
    ReadPairContents(begun, Pairs(a.violations), ds + rest);
    var paired := Reader(Some((a.artifact, a.marker)), Pairs(a.violations), [], Flushed(r));
    assert begun.(violations := begun.violations + Pairs(a.violations)) == paired;
    ReadStubContents(paired, a.dependees, rest);
    assert paired.(dependees := paired.dependees + Stubs(a.dependees)) == AfterArtifact(r, a);
  }

  function ReadAll(r: Reader, artifacts: seq<DeeplyAnalyzedArtifact>): Reader
    decreases |artifacts|
  {
    if artifacts == [] then r else ReadAll(AfterArtifact(r, artifacts[0]), artifacts[1..])
  }

  lemma {:induction false} ReadFileContents(r: Reader, artifacts: seq<DeeplyAnalyzedArtifact>)
    ensures ReadFrom(r, FileContents(artifacts)) == Ok(ReadAll(r, artifacts))
    decreases |artifacts|
  {
    if artifacts != [] {
      ReadBlock(r, artifacts[0], FileContents(artifacts[1..]));
      ReadFileContents(AfterArtifact(r, artifacts[0]), artifacts[1..]);
    }
  }

  /** A written artifact as the reader first rebuilds it. */
  function Reparsed(a: DeeplyAnalyzedArtifact): DeeplyAnalyzedArtifact
  {
    CreateArtifact(a.artifact, a.marker, Pairs(a.violations), Stubs(a.dependees))
  }

  /** `m` with each artifact, reparsed, put under its coordinates in turn. */
  function Loaded(m: map<ArtifactCoordinates, DeeplyAnalyzedArtifact>, artifacts: seq<DeeplyAnalyzedArtifact>)
    : map<ArtifactCoordinates, DeeplyAnalyzedArtifact>
    decreases |artifacts|
  {
    if artifacts == [] then m else Loaded(m[artifacts[0].artifact := Reparsed(artifacts[0])], artifacts[1..])
  }

  lemma {:induction false} FlushedReadAll(r: Reader, artifacts: seq<DeeplyAnalyzedArtifact>)
    ensures Flushed(ReadAll(r, artifacts)) == Loaded(Flushed(r), artifacts)
    decreases |artifacts|
  {
    if artifacts != [] {
      FlushedReadAll(AfterArtifact(r, artifacts[0]), artifacts[1..]);
    }
  }

  /** Reading a written file gives each artifact's block back as one
      preliminary artifact under its coordinates. */
  lemma PreliminaryOfWritten(artifacts: seq<DeeplyAnalyzedArtifact>)
    requires forall a :: a in artifacts ==> ArtifactWritable(a)
    ensures Preliminary(FileLines(artifacts)) == Ok(Loaded(map[], artifacts))
  {
    ParseFileLines(artifacts);
    ReadFileContents(Start, artifacts);
    FlushedReadAll(Start, artifacts);
  }

  /** Violation lines before the first header are read and then dropped. */
  lemma LeadingViolationLinesDropped(ps: seq<(Type, Type)>, artifacts: seq<DeeplyAnalyzedArtifact>)
    requires forall p :: p in ps ==> TypeWritable(p.0) && TypeWritable(p.1)
    requires artifacts != [] && forall a :: a in artifacts ==> ArtifactWritable(a)
    ensures Preliminary(PairLines(ps) + FileLines(artifacts)) == Preliminary(FileLines(artifacts))
  {
    ParseLinesAppend(PairLines(ps), FileLines(artifacts));
    ParsePairLines(ps);
    ParseFileLines(artifacts);
    ReadPairContents(Start, ps, FileContents(artifacts));
    var orphaned := Start.(violations := ps);
    ReadFileContents(orphaned, artifacts);
    ReadFileContents(Start, artifacts);
    assert ReadAll(orphaned, artifacts) == ReadAll(Start, artifacts) by {
      assert AfterArtifact(orphaned, artifacts[0]) == AfterArtifact(Start, artifacts[0]);
    }
  }

  /** A block read back, for an artifact whose violations and dependees the
      reader's grouping and deduplication leave as they are. */
  function Shallow(a: DeeplyAnalyzedArtifact): DeeplyAnalyzedArtifact
  {
    DeeplyAnalyzedArtifact(a.artifact, a.marker, a.violations, Stubs(a.dependees))
  }

  ghost predicate ArtifactReadable(a: DeeplyAnalyzedArtifact)
  {
    ViolationsReadable(a.violations) && Distinct(CoordinatesOf(a.dependees))
  }

  lemma ReparsedShallow(a: DeeplyAnalyzedArtifact)
    requires ArtifactReadable(a)
    ensures Reparsed(a) == Shallow(a)
  {
    GroupPairs(a.violations);
    assert CoordinatesOf(Stubs(a.dependees)) == CoordinatesOf(a.dependees);
    UniqueByCoordinatesOfDistinct(Stubs(a.dependees));
  }

  // ---------------------------------------------------------------------
  // Finalising

  /** A rank that falls along every dependee edge between preliminary
      artifacts. */
  ghost predicate Ranked(
    prelim: map<ArtifactCoordinates, DeeplyAnalyzedArtifact>, rank: map<ArtifactCoordinates, nat>)
  {
    && prelim.Keys <= rank.Keys
    && forall x, d :: x in prelim && d in prelim[x].dependees && d.artifact in prelim ==> rank[d.artifact] < rank[x]
  }

  /** No dependee cycle among the preliminary artifacts. */
  ghost predicate Acyclic(prelim: map<ArtifactCoordinates, DeeplyAnalyzedArtifact>)
  {
    exists rank :: Ranked(prelim, rank)
  }

  /** What `finalizeArtifactRecursively` returns for `x` while the artifacts
      on `path` are being finalised further up the stack: the preliminary
      artifact with each dependee replaced, in order, by its own finalised
      artifact. Coordinates without a preliminary artifact end in a
      NullPointerException. An artifact on the path is not in the memo yet,
      so coming back to it recurses without end and overflows the stack. */
  function Finalized(
    prelim: map<ArtifactCoordinates, DeeplyAnalyzedArtifact>, path: set<ArtifactCoordinates>,
    x: ArtifactCoordinates): (r: Result<DeeplyAnalyzedArtifact>)
    ensures r.Err? ==> r.error == NullPointer || r.error == StackOverflow
    ensures r.Ok? ==> x in prelim && x !in path && r.value.artifact == x
    ensures r.Ok? ==> r.value.marker == prelim[x].marker && r.value.violations == prelim[x].violations
    decreases prelim.Keys - path, 0, 0
  {
    if x !in prelim then Err(NullPointer)
    else if x in path then Err(StackOverflow)
    else
      var p := prelim[x];
      var ds :- FinalizedAll(prelim, path + {x}, p.dependees);
      Ok(DeeplyAnalyzedArtifact(x, p.marker, p.violations, ds))
  }

  /** The dependees' stream, mapped in order; the first exception ends it. */
  function FinalizedAll(
    prelim: map<ArtifactCoordinates, DeeplyAnalyzedArtifact>, path: set<ArtifactCoordinates>,
    ds: seq<DeeplyAnalyzedArtifact>): (r: Result<seq<DeeplyAnalyzedArtifact>>)
    ensures r.Err? ==> r.error == NullPointer || r.error == StackOverflow
    ensures r.Ok? ==> |r.value| == |ds|
    decreases prelim.Keys - path, 1, |ds|
  {
    if ds == [] then Ok([])
    else
      var init :- FinalizedAll(prelim, path, ds[..|ds| - 1]);
      var last :- Finalized(prelim, path, ds[|ds| - 1].artifact);
      Ok(init + [last])
  }

  /** The dependees are finalised one by one: all succeed exactly when each
      does ... */
  lemma {:induction false} FinalizedAllOk(
    prelim: map<ArtifactCoordinates, DeeplyAnalyzedArtifact>, path: set<ArtifactCoordinates>,
    ds: seq<DeeplyAnalyzedArtifact>)
    ensures FinalizedAll(prelim, path, ds).Ok? <==>
      forall i :: 0 <= i < |ds| ==> Finalized(prelim, path, ds[i].artifact).Ok?
    decreases |ds|
  {
    if ds != [] {
      var n := |ds| - 1;
      var init := ds[..n];
      FinalizedAllOk(prelim, path, init);
      forall i | 0 <= i < n ensures init[i] == ds[i] {
      }
    }
  }

  /** ... and each gives its own finalised artifact. */
  lemma {:induction false} FinalizedAllValues(
    prelim: map<ArtifactCoordinates, DeeplyAnalyzedArtifact>, path: set<ArtifactCoordinates>,
    ds: seq<DeeplyAnalyzedArtifact>)
    requires FinalizedAll(prelim, path, ds).Ok?
    ensures forall i :: 0 <= i < |ds| ==>
      Finalized(prelim, path, ds[i].artifact) == Ok(FinalizedAll(prelim, path, ds).value[i])
    decreases |ds|
  {
    if ds == [] {
      return;
    }
    var n := |ds| - 1;
    var init := ds[..n];
    var r := FinalizedAll(prelim, path, ds).value;
    var head := FinalizedAll(prelim, path, init).value;
    FinalizedAllValues(prelim, path, init);
    assert Finalized(prelim, path, ds[n].artifact) == Ok(r[n]) && r == head + [r[n]];
    forall i | 0 <= i < |ds| ensures Finalized(prelim, path, ds[i].artifact) == Ok(r[i]) {
      if i < n {
        assert r[i] == head[i] && init[i] == ds[i];
      }
    }
  }

  /** Dependees that finalise alike on two paths make the same stream. */
  lemma {:induction false} FinalizedAllAlike(
    prelim: map<ArtifactCoordinates, DeeplyAnalyzedArtifact>, p: set<ArtifactCoordinates>,
    q: set<ArtifactCoordinates>, ds: seq<DeeplyAnalyzedArtifact>)
    requires forall i :: 0 <= i < |ds| ==> Finalized(prelim, p, ds[i].artifact) == Finalized(prelim, q, ds[i].artifact)
    ensures FinalizedAll(prelim, p, ds) == FinalizedAll(prelim, q, ds)
    decreases |ds|
  {
    if ds != [] {
      var n := |ds| - 1;
      var init := ds[..n];
      assert forall i :: 0 <= i < n ==> init[i] == ds[i];
      FinalizedAllAlike(prelim, p, q, init);
      assert Finalized(prelim, p, ds[n].artifact) == Finalized(prelim, q, ds[n].artifact);
    }
  }

  /** One more dependee: its finalised artifact is appended, or its
      exception ends the stream. */
  lemma FinalizedAllStep(
    prelim: map<ArtifactCoordinates, DeeplyAnalyzedArtifact>, path: set<ArtifactCoordinates>,
    ds: seq<DeeplyAnalyzedArtifact>, i: nat, done: seq<DeeplyAnalyzedArtifact>)
    requires i < |ds| && FinalizedAll(prelim, path, ds[..i]) == Ok(done)
    ensures FinalizedAll(prelim, path, ds[..i + 1])
      == match Finalized(prelim, path, ds[i].artifact)
         case Ok(a) => Ok(done + [a])
         case Err(e) => Err(e)
  {
    assert ds[..i + 1][..i] == ds[..i];
  }

  /** Once a prefix of the dependees fails, the whole stream fails with the
      same exception. */
  lemma {:induction false} FinalizedAllPrefix(
    prelim: map<ArtifactCoordinates, DeeplyAnalyzedArtifact>, path: set<ArtifactCoordinates>,
    ds: seq<DeeplyAnalyzedArtifact>, n: nat)
    requires n <= |ds| && FinalizedAll(prelim, path, ds[..n]).Err?
    ensures FinalizedAll(prelim, path, ds) == FinalizedAll(prelim, path, ds[..n])
    decreases |ds|
  {
    if n < |ds| {
      var init := ds[..|ds| - 1];
      assert init[..n] == ds[..n];
      FinalizedAllPrefix(prelim, path, init, n);
    } else {
      assert ds[..n] == ds;
    }
  }

  /** An artifact that finalises keeps its finalised artifact when fewer
      artifacts are on the path. */
  lemma {:induction false} FinalizedShorterPath(
    prelim: map<ArtifactCoordinates, DeeplyAnalyzedArtifact>, p: set<ArtifactCoordinates>,
    q: set<ArtifactCoordinates>, x: ArtifactCoordinates)
    requires q <= p && Finalized(prelim, p, x).Ok?
    ensures Finalized(prelim, q, x) == Finalized(prelim, p, x)
    decreases prelim.Keys - p
  {
    var ds := prelim[x].dependees;
    FinalizedAllOk(prelim, p + {x}, ds);
    forall i | 0 <= i < |ds|
      ensures Finalized(prelim, p + {x}, ds[i].artifact) == Finalized(prelim, q + {x}, ds[i].artifact)
    {
      FinalizedShorterPath(prelim, p + {x}, q + {x}, ds[i].artifact);
    }
    FinalizedAllAlike(prelim, p + {x}, q + {x}, ds);
  }

  /** Every dependee of a preliminary artifact has a preliminary artifact of
      its own. */
  ghost predicate Closed(prelim: map<ArtifactCoordinates, DeeplyAnalyzedArtifact>)
  {
    forall x, d :: x in prelim && d in prelim[x].dependees ==> d.artifact in prelim
  }

  /** A failing stream fails with the exception of one of its dependees. */
  lemma {:induction false} FinalizedAllErr(
    prelim: map<ArtifactCoordinates, DeeplyAnalyzedArtifact>, path: set<ArtifactCoordinates>,
    ds: seq<DeeplyAnalyzedArtifact>)
    requires FinalizedAll(prelim, path, ds).Err?
    ensures exists i :: 0 <= i < |ds| && Finalized(prelim, path, ds[i].artifact) == Err(FinalizedAll(prelim, path, ds).error)
    decreases |ds|
  {
    var n := |ds| - 1;
    var init := ds[..n];
    if FinalizedAll(prelim, path, init).Err? {
      FinalizedAllErr(prelim, path, init);
      var i :| 0 <= i < n && Finalized(prelim, path, init[i].artifact) == Err(FinalizedAll(prelim, path, init).error);
      assert init[i] == ds[i];
    } else {
      assert Finalized(prelim, path, ds[n].artifact) == Err(FinalizedAll(prelim, path, ds).error);
    }
  }

  /** Where every dependee has a preliminary artifact, finalising one never
      throws a NullPointerException. */
  lemma {:induction false} ClosedNeverNull(
    prelim: map<ArtifactCoordinates, DeeplyAnalyzedArtifact>, path: set<ArtifactCoordinates>,
    x: ArtifactCoordinates)
    requires Closed(prelim) && x in prelim
    ensures Finalized(prelim, path, x) != Err(NullPointer)
    decreases prelim.Keys - path
  {
    var ds := prelim[x].dependees;
    if x !in path && FinalizedAll(prelim, path + {x}, ds).Err? {
      FinalizedAllErr(prelim, path + {x}, ds);
      var i :| 0 <= i < |ds| && Finalized(prelim, path + {x}, ds[i].artifact) == Err(FinalizedAll(prelim, path + {x}, ds).error);
      assert ds[i] in prelim[x].dependees;
      ClosedNeverNull(prelim, path + {x}, ds[i].artifact);
    }
  }

  /** Where a rank falls along every edge and every artifact on the path
      outranks `x`, finalising `x` never comes back to the path. */
  lemma {:induction false} RankedNeverOverflows(
    prelim: map<ArtifactCoordinates, DeeplyAnalyzedArtifact>, rank: map<ArtifactCoordinates, nat>,
    path: set<ArtifactCoordinates>, x: ArtifactCoordinates)
    requires Ranked(prelim, rank) && path <= prelim.Keys
    requires x in prelim ==> forall p :: p in path ==> rank[x] < rank[p]
    ensures Finalized(prelim, path, x) != Err(StackOverflow)
    decreases prelim.Keys - path
  {
    if x in prelim && x !in path {
      var ds := prelim[x].dependees;
      if FinalizedAll(prelim, path + {x}, ds).Err? {
        FinalizedAllErr(prelim, path + {x}, ds);
        var i :| 0 <= i < |ds| && Finalized(prelim, path + {x}, ds[i].artifact) == Err(FinalizedAll(prelim, path + {x}, ds).error);
        assert ds[i] in prelim[x].dependees;
        RankedNeverOverflows(prelim, rank, path + {x}, ds[i].artifact);
      }
    }
  }

  /** Every preliminary artifact can be finalised exactly when every
      dependee appears as an artifact of its own and no dependee cycle
      exists. */
  lemma FinalizedIffClosed(prelim: map<ArtifactCoordinates, DeeplyAnalyzedArtifact>)
    ensures (forall x :: x in prelim ==> Finalized(prelim, {}, x).Ok?) <==> Closed(prelim) && Acyclic(prelim)
  {
    if Closed(prelim) && Acyclic(prelim) {
      var rank :| Ranked(prelim, rank);
      forall x | x in prelim ensures Finalized(prelim, {}, x).Ok? {
        ClosedNeverNull(prelim, {}, x);
        RankedNeverOverflows(prelim, rank, {}, x);
      }
    }
    if forall x :: x in prelim ==> Finalized(prelim, {}, x).Ok? {
      var rank := map x | x in prelim :: Depth(Finalized(prelim, {}, x).value);
      forall x, d | x in prelim && d in prelim[x].dependees
        ensures d.artifact in prelim && rank[d.artifact] < rank[x]
      {
        FinalizedEdge(prelim, x, d);
      }
      assert Ranked(prelim, rank);
    }
  }

  /** Along an edge between artifacts that finalise, the dependee's tree is
      one of the dependent's subtrees, so it is less deep. */
  lemma FinalizedEdge(
    prelim: map<ArtifactCoordinates, DeeplyAnalyzedArtifact>, x: ArtifactCoordinates, d: DeeplyAnalyzedArtifact)
    requires x in prelim && d in prelim[x].dependees && Finalized(prelim, {}, x).Ok?
    ensures Finalized(prelim, {}, d.artifact).Ok?
    ensures Depth(Finalized(prelim, {}, d.artifact).value) < Depth(Finalized(prelim, {}, x).value)
  {
    var ds := prelim[x].dependees;
    var a := Finalized(prelim, {}, x).value;
    assert {} + {x} == {x};
    assert FinalizedAll(prelim, {x}, ds) == Ok(a.dependees);
    var i :| 0 <= i < |ds| && ds[i] == d;
    FinalizedAllValues(prelim, {x}, ds);
    FinalizedShorterPath(prelim, {x}, {}, d.artifact);
    assert Depth(a) == DeepestDependee(a, |a.dependees|);
  }

  /** A preliminary artifact that does not finalise: with every dependee
      present the recursion ran around a cycle, and without a cycle a
      dependee was missing. */
  lemma FinalizedFails(prelim: map<ArtifactCoordinates, DeeplyAnalyzedArtifact>, x: ArtifactCoordinates)
    requires x in prelim && Finalized(prelim, {}, x).Err?
    ensures !(Closed(prelim) && Acyclic(prelim))
    ensures Closed(prelim) ==> Finalized(prelim, {}, x).error == StackOverflow
    ensures Acyclic(prelim) ==> Finalized(prelim, {}, x).error == NullPointer
  {
    FinalizedIffClosed(prelim);
    if Closed(prelim) {
      ClosedNeverNull(prelim, {}, x);
    }
    if Acyclic(prelim) {
      var rank :| Ranked(prelim, rank);
      RankedNeverOverflows(prelim, rank, {}, x);
    }
  }

  /** Two artifacts whose lines name each other as dependees: both are
      present, and finalising either overflows the stack. */
  lemma CycleOverflows()
    ensures var prelim := map[
              Dependent := DeeplyAnalyzedArtifact(Dependent, Internal.NONE, [], [DeeplyAnalyzedArtifact(Dependee, Internal.NONE, [], [])]),
              Dependee := DeeplyAnalyzedArtifact(Dependee, Internal.NONE, [], [DeeplyAnalyzedArtifact(Dependent, Internal.NONE, [], [])])];
            && Closed(prelim) && !Acyclic(prelim)
            && Finalized(prelim, {}, Dependent) == Err(StackOverflow)
  {
    var prelim := map[
      Dependent := DeeplyAnalyzedArtifact(Dependent, Internal.NONE, [], [DeeplyAnalyzedArtifact(Dependee, Internal.NONE, [], [])]),
      Dependee := DeeplyAnalyzedArtifact(Dependee, Internal.NONE, [], [DeeplyAnalyzedArtifact(Dependent, Internal.NONE, [], [])])];
    assert {} + {Dependent} == {Dependent};
    assert {Dependent} + {Dependee} == {Dependent, Dependee};
    var back := prelim[Dependee].dependees;
    assert back[..0] == [] && back[0].artifact == Dependent;
    assert FinalizedAll(prelim, {Dependent, Dependee}, back) == Err(StackOverflow);
    assert Finalized(prelim, {Dependent}, Dependee) == Err(StackOverflow);
    FinalizedFails(prelim, Dependent);
  }

  const Dependent := ArtifactCoordinates("org.example", "dependent", "1.0")
  const Dependee := ArtifactCoordinates("org.example", "dependee", "1.0")

  /** The memo of `finalizeArtifacts`: every artifact in it is the finalised
      artifact for its key from any path that avoids the memo. */
  ghost predicate MemoSound(
    prelim: map<ArtifactCoordinates, DeeplyAnalyzedArtifact>, memo: map<ArtifactCoordinates, DeeplyAnalyzedArtifact>)
  {
    forall k, q :: k in memo && q !! memo.Keys ==> Finalized(prelim, q, k) == Ok(memo[k])
  }

  /** An artifact whose dependees are all in the memo finalises alike from
      every path that avoids the memo and the artifact, so it can join the
      memo. */
  lemma MemoAdd(
    prelim: map<ArtifactCoordinates, DeeplyAnalyzedArtifact>, memo: map<ArtifactCoordinates, DeeplyAnalyzedArtifact>,
    path: set<ArtifactCoordinates>, x: ArtifactCoordinates)
    requires MemoSound(prelim, memo) && path !! memo.Keys
    requires x in prelim && x !in path && x !in memo
    requires forall d :: d in prelim[x].dependees ==> d.artifact in memo
    ensures Finalized(prelim, path, x).Ok?
    ensures MemoSound(prelim, memo[x := Finalized(prelim, path, x).value])
  {
    var ds := prelim[x].dependees;
    forall q | q !! memo.Keys && x !in q
      ensures Finalized(prelim, q, x) == Finalized(prelim, path, x)
    {
      forall i | 0 <= i < |ds|
        ensures Finalized(prelim, q + {x}, ds[i].artifact) == Finalized(prelim, path + {x}, ds[i].artifact)
      {
        assert ds[i] in prelim[x].dependees;
        assert Finalized(prelim, q + {x}, ds[i].artifact) == Ok(memo[ds[i].artifact]);
        assert Finalized(prelim, path + {x}, ds[i].artifact) == Ok(memo[ds[i].artifact]);
      }
      FinalizedAllAlike(prelim, q + {x}, path + {x}, ds);
    }
    forall i | 0 <= i < |ds| ensures Finalized(prelim, path + {x}, ds[i].artifact).Ok? {
      assert ds[i] in prelim[x].dependees;
      assert Finalized(prelim, path + {x}, ds[i].artifact) == Ok(memo[ds[i].artifact]);
    }
    FinalizedAllOk(prelim, path + {x}, ds);
  }

  /** `finalizeArtifactRecursively`, with the artifacts being finalised
      further up the stack on `path`: an artifact already in the memo is
      returned from it; otherwise its dependees are finalised in order and
      the result is put in the memo. The memo is handed in and out rather
      than shared. */
  method FinalizeArtifactRecursively(
    x: ArtifactCoordinates, path: set<ArtifactCoordinates>, prelim: map<ArtifactCoordinates, DeeplyAnalyzedArtifact>,
    memo: map<ArtifactCoordinates, DeeplyAnalyzedArtifact>)
    returns (r: Result<DeeplyAnalyzedArtifact>, finalized: map<ArtifactCoordinates, DeeplyAnalyzedArtifact>)
    requires MemoSound(prelim, memo) && path !! memo.Keys
    ensures r == Finalized(prelim, path, x)
    ensures MemoSound(prelim, finalized) && memo.Keys <= finalized.Keys && path !! finalized.Keys
    ensures r.Ok? ==> x in finalized
    decreases prelim.Keys - path, 0
  {
    if x in memo {
      return Ok(memo[x]), memo;
    }
    if x !in prelim {
      return Err(NullPointer), memo;
    }
    if x in path {
      return Err(StackOverflow), memo;
    }
    var p := prelim[x];
    var ds;
    ds, finalized := FinalizeDependees(p.dependees, path + {x}, prelim, memo);
    if ds.Err? {
      return Err(ds.error), finalized;
    }
    MemoAdd(prelim, finalized, path, x);
    var a := DeeplyAnalyzedArtifact(x, p.marker, p.violations, ds.value);
    finalized := finalized[x := a];
    return Ok(a), finalized;
  }

  /** The dependees' stream of `finalizeArtifactRecursively`: each is
      finalised in order, and the first exception ends the stream. */
  method FinalizeDependees(
    ds: seq<DeeplyAnalyzedArtifact>, path: set<ArtifactCoordinates>, prelim: map<ArtifactCoordinates, DeeplyAnalyzedArtifact>,
    memo: map<ArtifactCoordinates, DeeplyAnalyzedArtifact>)
    returns (r: Result<seq<DeeplyAnalyzedArtifact>>, finalized: map<ArtifactCoordinates, DeeplyAnalyzedArtifact>)
    requires MemoSound(prelim, memo) && path !! memo.Keys
    ensures r == FinalizedAll(prelim, path, ds)
    ensures MemoSound(prelim, finalized) && memo.Keys <= finalized.Keys && path !! finalized.Keys
    ensures r.Ok? ==> forall d :: d in ds ==> d.artifact in finalized
    decreases prelim.Keys - path, 1
  {
    var done: seq<DeeplyAnalyzedArtifact> := [];
    finalized := memo;
    for i := 0 to |ds|
      invariant MemoSound(prelim, finalized) && memo.Keys <= finalized.Keys && path !! finalized.Keys
      invariant FinalizedAll(prelim, path, ds[..i]) == Ok(done)
      invariant forall j :: 0 <= j < i ==> ds[j].artifact in finalized
    {
      var d;
      d, finalized := FinalizeArtifactRecursively(ds[i].artifact, path, prelim, finalized);
      FinalizedAllStep(prelim, path, ds, i, done);
      if d.Err? {
        FinalizedAllPrefix(prelim, path, ds, i + 1);
        return Err(d.error), finalized;
      }
      done := done + [d.value];
    }
    assert ds[..|ds|] == ds;
    return Ok(done), finalized;
  }

  /** `finalizeArtifacts`: every preliminary artifact is finalised, in the
      hash map's order, into one shared memo whose values are the result. It
      succeeds exactly when every dependee appears as an artifact and no
      dependee cycle exists. */
  method FinalizeArtifacts(prelim: map<ArtifactCoordinates, DeeplyAnalyzedArtifact>)
    returns (r: Result<map<ArtifactCoordinates, DeeplyAnalyzedArtifact>>)
    ensures r.Ok? <==> Closed(prelim) && Acyclic(prelim)
    ensures r.Err? ==> r.error == NullPointer || r.error == StackOverflow
    ensures r.Err? && Closed(prelim) ==> r.error == StackOverflow
    ensures r.Err? && Acyclic(prelim) ==> r.error == NullPointer
    ensures r.Ok? ==> r.value.Keys == prelim.Keys
    ensures r.Ok? ==> forall k :: k in r.value ==> Finalized(prelim, {}, k) == Ok(r.value[k])
  {
    var finalized := map[];
    var remaining := prelim.Keys;
    while remaining != {}
      invariant remaining <= prelim.Keys
      invariant MemoSound(prelim, finalized)
      invariant prelim.Keys - remaining <= finalized.Keys
      invariant forall x :: x in prelim && x !in remaining ==> Finalized(prelim, {}, x).Ok?
      decreases |remaining|
    {
      var x :| x in remaining;
      var a;
      a, finalized := FinalizeArtifactRecursively(x, {}, prelim, finalized);
      if a.Err? {
        FinalizedFails(prelim, x);
        return Err(a.error);
      }
      remaining := remaining - {x};
    }
    FinalizedIffClosed(prelim);
    MemoFinal(prelim, finalized);
    return Ok(finalized);
  }

  /** The memo's artifacts are finalised from the top of the recursion. */
  lemma MemoFinal(prelim: map<ArtifactCoordinates, DeeplyAnalyzedArtifact>, memo: map<ArtifactCoordinates, DeeplyAnalyzedArtifact>)
    requires MemoSound(prelim, memo)
    ensures forall k :: k in memo ==> Finalized(prelim, {}, k) == Ok(memo[k])
  {
    assert {} !! memo.Keys;
  }

  /** The coordinates' comparator keys. */
  function KeysOf(cs: set<ArtifactCoordinates>): set<seq<string>>
  {
    set c | c in cs :: ArtifactKey(c)
  }

  /** The sorted set holds, for each of `added`, the finalised artifact. */
  ghost predicate SortedFrom(
    finalized: map<ArtifactCoordinates, DeeplyAnalyzedArtifact>, added: set<ArtifactCoordinates>,
    sorted: seq<DeeplyAnalyzedArtifact>)
  {
    && Sorted(sorted, Key) && |sorted| == |added|
    && Keys(sorted, Key) == KeysOf(added)
    && forall y :: y in sorted ==> y.artifact in added && y.artifact in finalized && finalized[y.artifact] == y
  }

  lemma SortedFromAdd(
    finalized: map<ArtifactCoordinates, DeeplyAnalyzedArtifact>, added: set<ArtifactCoordinates>,
    sorted: seq<DeeplyAnalyzedArtifact>, k: ArtifactCoordinates)
    requires forall k :: k in finalized ==> finalized[k].artifact == k
    requires SortedFrom(finalized, added, sorted) && k in finalized && k !in added
    ensures SortedFrom(finalized, added + {k}, Add(sorted, finalized[k], Key))
  {
    var a := finalized[k];
    var t := Add(sorted, a, Key);
    AddSpec(sorted, a, Key);
    KeyNotAdded(added, k);
    assert |multiset(t)| == |sorted| + 1;
    KeysOfAdd(added, k);
    AddedFromFinalized(finalized, added, sorted, k, t);
  }

  lemma KeysOfAdd(added: set<ArtifactCoordinates>, k: ArtifactCoordinates)
    ensures KeysOf(added + {k}) == KeysOf(added) + {ArtifactKey(k)}
  {
  }

  lemma KeyNotAdded(added: set<ArtifactCoordinates>, k: ArtifactCoordinates)
    requires k !in added
    ensures ArtifactKey(k) !in KeysOf(added)
  {
  }

  lemma AddedFromFinalized(
    finalized: map<ArtifactCoordinates, DeeplyAnalyzedArtifact>, added: set<ArtifactCoordinates>,
    sorted: seq<DeeplyAnalyzedArtifact>, k: ArtifactCoordinates, t: seq<DeeplyAnalyzedArtifact>)
    requires k in finalized && finalized[k].artifact == k
    requires forall y :: y in sorted ==> y.artifact in added && y.artifact in finalized && finalized[y.artifact] == y
    requires multiset(t) == multiset(sorted) + multiset{finalized[k]}
    ensures forall y :: y in t ==> y.artifact in added + {k} && y.artifact in finalized && finalized[y.artifact] == y
  {
    forall y | y in t ensures y.artifact in added + {k} && y.artifact in finalized && finalized[y.artifact] == y {
      assert y in multiset(t);
    }
  }

  lemma SortedFromAll(finalized: map<ArtifactCoordinates, DeeplyAnalyzedArtifact>, sorted: seq<DeeplyAnalyzedArtifact>)
    requires SortedFrom(finalized, finalized.Keys, sorted)
    ensures Sorted(sorted, Key) && |sorted| == |finalized|
    ensures forall i :: 0 <= i < |sorted| ==> sorted[i].artifact in finalized && finalized[sorted[i].artifact] == sorted[i]
    ensures forall k :: k in finalized ==> finalized[k] in sorted
  {
    forall k | k in finalized ensures finalized[k] in sorted {
      assert ArtifactKey(k) in KeysOf(finalized.Keys);
      var i :| 0 <= i < |sorted| && Key(sorted[i]) == ArtifactKey(k);
      assert sorted[i] in sorted;
    }
    forall i | 0 <= i < |sorted|
      ensures sorted[i].artifact in finalized && finalized[sorted[i].artifact] == sorted[i]
    {
      assert sorted[i] in sorted;
    }
  }

  /** `sortArtifacts`: the finalised artifacts added, in the hash map's
      order, to a set ordered alphabetically by coordinates. */
  method SortArtifacts(finalized: map<ArtifactCoordinates, DeeplyAnalyzedArtifact>)
    returns (sorted: seq<DeeplyAnalyzedArtifact>)
    requires forall k :: k in finalized ==> finalized[k].artifact == k
    ensures Sorted(sorted, Key) && |sorted| == |finalized|
    ensures forall i :: 0 <= i < |sorted| ==> sorted[i].artifact in finalized && finalized[sorted[i].artifact] == sorted[i]
    ensures forall k :: k in finalized ==> finalized[k] in sorted
  {
    sorted := [];
    var remaining := finalized.Keys;
    ghost var added: set<ArtifactCoordinates> := {};
    while remaining != {}
      invariant added !! remaining && added + remaining == finalized.Keys
      invariant SortedFrom(finalized, added, sorted)
      decreases |remaining|
    {
      var k :| k in remaining;
      SortedFromAdd(finalized, added, sorted, k);
      sorted := Add(sorted, finalized[k], Key);
      added := added + {k};
      remaining := remaining - {k};
    }
    assert added == finalized.Keys;
    SortedFromAll(finalized, sorted);
  }

  /** What reading a file gives for its preliminary artifacts: the
      finalised artifact for each, one per coordinates, in alphabetical
      order. */
  ghost predicate ReadBack(prelim: map<ArtifactCoordinates, DeeplyAnalyzedArtifact>, sorted: seq<DeeplyAnalyzedArtifact>)
  {
    && Sorted(sorted, Key)
    && |sorted| == |prelim|
    && (forall i :: 0 <= i < |sorted| ==> Finalized(prelim, {}, sorted[i].artifact) == Ok(sorted[i]))
    && (forall x :: x in prelim ==> Finalized(prelim, {}, x).Ok? && Finalized(prelim, {}, x).value in sorted)
  }

  /** `readFile`: parse, finalise, sort. A file whose lines parse reads
      exactly when every dependee also appears as an artifact and no
      dependee cycle exists; otherwise the exception is a
      NullPointerException for a missing dependee or a StackOverflowError
      for a cycle, whichever the hash map's order meets first. */
  method ReadFile(lines: seq<string>) returns (r: Result<seq<DeeplyAnalyzedArtifact>>)
    ensures Preliminary(lines).Err? ==> r == Err(Preliminary(lines).error)
    ensures Preliminary(lines).Ok? ==> (r.Ok? <==> Closed(Preliminary(lines).value) && Acyclic(Preliminary(lines).value))
    ensures Preliminary(lines).Ok? && r.Err? ==> r.error == NullPointer || r.error == StackOverflow
    ensures Preliminary(lines).Ok? && r.Err? && Closed(Preliminary(lines).value) ==> r.error == StackOverflow
    ensures Preliminary(lines).Ok? && r.Err? && Acyclic(Preliminary(lines).value) ==> r.error == NullPointer
    ensures r.Ok? ==> Preliminary(lines).Ok? && ReadBack(Preliminary(lines).value, r.value)
  {
    var prelim :- ParsePreliminaryArtifacts(lines);
    var finalized :- FinalizeArtifacts(prelim);
    var sorted := SortArtifacts(finalized);
    assert |finalized| == |finalized.Keys| == |prelim.Keys| == |prelim|;
    return Ok(sorted);
  }

  // ---------------------------------------------------------------------
  // Reading back what was written, finalised

  /** Loading puts exactly the artifacts' coordinates into the map ... */
  lemma {:induction false} LoadedKeys(
    m: map<ArtifactCoordinates, DeeplyAnalyzedArtifact>, artifacts: seq<DeeplyAnalyzedArtifact>)
    ensures Loaded(m, artifacts).Keys == m.Keys + (set a | a in artifacts :: a.artifact)
    decreases |artifacts|
  {
    if artifacts != [] {
      var a := artifacts[0];
      LoadedKeys(m[a.artifact := Reparsed(a)], artifacts[1..]);
      assert artifacts == [a] + artifacts[1..];
    }
  }

  /** ... keeps the entries whose coordinates it does not load ... */
  lemma {:induction false} LoadedKeeps(
    m: map<ArtifactCoordinates, DeeplyAnalyzedArtifact>, artifacts: seq<DeeplyAnalyzedArtifact>,
    c: ArtifactCoordinates)
    requires c in m && forall a :: a in artifacts && a.artifact == c ==> Reparsed(a) == m[c]
    ensures c in Loaded(m, artifacts) && Loaded(m, artifacts)[c] == m[c]
    decreases |artifacts|
  {
    if artifacts != [] {
      var a := artifacts[0];
      LoadedKeeps(m[a.artifact := Reparsed(a)], artifacts[1..], c);
    }
  }

  /** ... and, with distinct coordinates, puts each artifact under its own. */
  lemma {:induction false} LoadedAt(
    m: map<ArtifactCoordinates, DeeplyAnalyzedArtifact>, artifacts: seq<DeeplyAnalyzedArtifact>, k: nat)
    requires UniqueCoordinates(artifacts) && k < |artifacts|
    ensures artifacts[k].artifact in Loaded(m, artifacts)
    ensures Loaded(m, artifacts)[artifacts[k].artifact] == Reparsed(artifacts[k])
    decreases |artifacts|
  {
    if k == 0 {
      LoadedAtHead(m, artifacts);
    } else {
      var a := artifacts[0];
      LoadedCons(m, artifacts);
      UniqueTail(artifacts);
      LoadedAt(m[a.artifact := Reparsed(a)], artifacts[1..], k - 1);
    }
  }

  lemma LoadedCons(m: map<ArtifactCoordinates, DeeplyAnalyzedArtifact>, artifacts: seq<DeeplyAnalyzedArtifact>)
    requires artifacts != []
    ensures Loaded(m, artifacts) == Loaded(m[artifacts[0].artifact := Reparsed(artifacts[0])], artifacts[1..])
  {
  }

  /** The first artifact is loaded under its coordinates, which no later one
      shares. */
  lemma LoadedAtHead(m: map<ArtifactCoordinates, DeeplyAnalyzedArtifact>, artifacts: seq<DeeplyAnalyzedArtifact>)
    requires artifacts != [] && UniqueCoordinates(artifacts)
    ensures artifacts[0].artifact in Loaded(m, artifacts)
    ensures Loaded(m, artifacts)[artifacts[0].artifact] == Reparsed(artifacts[0])
  {
    var a := artifacts[0];
    UniqueHead(artifacts);
    LoadedCons(m, artifacts);
    LoadedKeeps(m[a.artifact := Reparsed(a)], artifacts[1..], a.artifact);
  }

  lemma UniqueHead(artifacts: seq<DeeplyAnalyzedArtifact>)
    requires artifacts != [] && UniqueCoordinates(artifacts)
    ensures forall b :: b in artifacts[1..] && b.artifact == artifacts[0].artifact ==> b == artifacts[0]
  {
    forall b | b in artifacts[1..] && b.artifact == artifacts[0].artifact ensures b == artifacts[0] {
      assert b in artifacts && artifacts[0] in artifacts;
    }
  }

  lemma UniqueTail(artifacts: seq<DeeplyAnalyzedArtifact>)
    requires artifacts != [] && UniqueCoordinates(artifacts)
    ensures UniqueCoordinates(artifacts[1..])
  {
    forall a, b | a in artifacts[1..] && b in artifacts[1..] && a.artifact == b.artifact ensures a == b {
      assert a in artifacts && b in artifacts;
    }
  }

  /** How deep an artifact's dependee tree goes. */
  function Depth(a: DeeplyAnalyzedArtifact): nat
    decreases a, 1
  {
    DeepestDependee(a, |a.dependees|)
  }

  /** One more than the depth of each of the first `n` dependees. */
  function DeepestDependee(a: DeeplyAnalyzedArtifact, n: nat): (depth: nat)
    requires n <= |a.dependees|
    ensures forall i :: 0 <= i < n ==> Depth(a.dependees[i]) < depth
    decreases a, 0, n
  {
    if n == 0 then 0
    else
      var before := DeepestDependee(a, n - 1);
      var last := Depth(a.dependees[n - 1]) + 1;
      if before < last then last else before
  }

  /** No two artifacts share coordinates. */
  ghost predicate UniqueCoordinates(artifacts: seq<DeeplyAnalyzedArtifact>)
  {
    forall a, b :: a in artifacts && b in artifacts && a.artifact == b.artifact ==> a == b
  }

  /** Each written artifact ranked by the depth of its dependee tree. */
  function DepthRank(artifacts: seq<DeeplyAnalyzedArtifact>): map<ArtifactCoordinates, nat>
    requires UniqueCoordinates(artifacts)
  {
    map a | a in artifacts :: a.artifact := Depth(a)
  }

  /** A set the reader gives back as it was written: sorted, every artifact
      in the line format's reach and read back unchanged by the reader's
      grouping and deduplication, and each dependee itself in the set. */
  ghost predicate SelfContained(artifacts: seq<DeeplyAnalyzedArtifact>)
  {
    && Sorted(artifacts, Key)
    && forall a :: a in artifacts ==>
         && ArtifactWritable(a) && ArtifactReadable(a)
         && forall d :: d in a.dependees ==> d in artifacts
  }

  lemma SortedUnique(artifacts: seq<DeeplyAnalyzedArtifact>)
    requires Sorted(artifacts, Key)
    ensures UniqueCoordinates(artifacts) && Distinct(CoordinatesOf(artifacts))
  {
    forall i, j | 0 <= i < j < |artifacts| ensures artifacts[i].artifact != artifacts[j].artifact {
      CompareFieldsZero(Key(artifacts[i]), Key(artifacts[j]));
    }
    forall a, b | a in artifacts && b in artifacts && a.artifact == b.artifact ensures a == b {
      var i :| 0 <= i < |artifacts| && artifacts[i] == a;
      var j :| 0 <= j < |artifacts| && artifacts[j] == b;
      assert !(i < j) && !(j < i);
    }
  }

  lemma LoadedShallow(artifacts: seq<DeeplyAnalyzedArtifact>, k: nat)
    requires UniqueCoordinates(artifacts) && k < |artifacts| && ArtifactReadable(artifacts[k])
    ensures artifacts[k].artifact in Loaded(map[], artifacts)
    ensures Loaded(map[], artifacts)[artifacts[k].artifact] == Shallow(artifacts[k])
  {
    LoadedAt(map[], artifacts, k);
    ReparsedShallow(artifacts[k]);
  }

  /** Preliminary artifacts as a written set of artifacts reads back: under
      each artifact's coordinates the artifact with its dependees cut down
      to stubs, where each dependee is itself in the set. */
  ghost predicate Stubbed(
    prelim: map<ArtifactCoordinates, DeeplyAnalyzedArtifact>, artifacts: seq<DeeplyAnalyzedArtifact>)
  {
    && UniqueCoordinates(artifacts)
    && prelim.Keys == (set a | a in artifacts :: a.artifact)
    && (forall a :: a in artifacts ==> prelim[a.artifact] == Shallow(a))
    && forall a, d :: a in artifacts && d in a.dependees ==> d in artifacts
  }

  /** The preliminary artifacts of a written self-contained set. */
  lemma LoadedSelfContained(artifacts: seq<DeeplyAnalyzedArtifact>)
    requires SelfContained(artifacts)
    ensures Stubbed(Loaded(map[], artifacts), artifacts)
  {
    SortedUnique(artifacts);
    LoadedKeys(map[], artifacts);
    forall a | a in artifacts ensures Loaded(map[], artifacts)[a.artifact] == Shallow(a) {
      var k :| 0 <= k < |artifacts| && artifacts[k] == a;
      LoadedShallow(artifacts, k);
    }
  }

  /** The depth rank falls along every dependee edge of a written
      self-contained set, and every dependee is there as an artifact. */
  lemma RankedStubbed(prelim: map<ArtifactCoordinates, DeeplyAnalyzedArtifact>, artifacts: seq<DeeplyAnalyzedArtifact>)
    requires Stubbed(prelim, artifacts)
    ensures Ranked(prelim, DepthRank(artifacts)) && Closed(prelim)
  {
    var rank := DepthRank(artifacts);
    forall x, d | x in prelim && d in prelim[x].dependees
      ensures d.artifact in prelim && d.artifact in rank && x in rank && rank[d.artifact] < rank[x]
    {
      var a :| a in artifacts && a.artifact == x;
      var i :| 0 <= i < |a.dependees| && Stubs(a.dependees)[i] == d;
      var b := a.dependees[i];
      assert b in a.dependees;
      DepthRankAt(artifacts, a);
      DepthRankAt(artifacts, b);
    }
  }

  lemma DepthRankAt(artifacts: seq<DeeplyAnalyzedArtifact>, a: DeeplyAnalyzedArtifact)
    requires UniqueCoordinates(artifacts) && a in artifacts
    ensures a.artifact in DepthRank(artifacts) && DepthRank(artifacts)[a.artifact] == Depth(a)
  {
  }

  /** Every artifact on the path has a tree deeper than `depth`. */
  ghost predicate Deeper(artifacts: seq<DeeplyAnalyzedArtifact>, path: set<ArtifactCoordinates>, depth: nat)
    requires UniqueCoordinates(artifacts)
  {
    forall p :: p in path ==> p in DepthRank(artifacts) && depth < DepthRank(artifacts)[p]
  }

  /** Going down to a dependee puts its dependent on the path, whose tree is
      deeper still; the dependent itself was not on the path. */
  lemma DeeperStep(
    artifacts: seq<DeeplyAnalyzedArtifact>, path: set<ArtifactCoordinates>, a: DeeplyAnalyzedArtifact, i: nat)
    requires UniqueCoordinates(artifacts) && a in artifacts && i < |a.dependees|
    requires Deeper(artifacts, path, Depth(a))
    ensures a.artifact !in path
    ensures Deeper(artifacts, path + {a.artifact}, Depth(a.dependees[i]))
  {
    DepthRankAt(artifacts, a);
    assert Depth(a) == DeepestDependee(a, |a.dependees|);
  }

  /** Finalising the preliminary artifacts of a written self-contained set
      rebuilds every artifact as it was, dependee trees included, from any
      path of artifacts whose trees are deeper. */
  lemma {:induction false} FinalizedStubbed(
    prelim: map<ArtifactCoordinates, DeeplyAnalyzedArtifact>, artifacts: seq<DeeplyAnalyzedArtifact>,
    path: set<ArtifactCoordinates>, a: DeeplyAnalyzedArtifact)
    requires Stubbed(prelim, artifacts) && a in artifacts && Deeper(artifacts, path, Depth(a))
    ensures Finalized(prelim, path, a.artifact) == Ok(a)
    decreases a
  {
    var x := a.artifact;
    var ds := a.dependees;
    forall i | 0 <= i < |ds| ensures Finalized(prelim, path + {x}, ds[i].artifact) == Ok(ds[i]) {
      assert ds[i] in a.dependees;
      DeeperStep(artifacts, path, a, i);
      FinalizedStubbed(prelim, artifacts, path + {x}, ds[i]);
    }
    if |ds| == 0 {
      DepthRankAt(artifacts, a);
    } else {
      DeeperStep(artifacts, path, a, 0);
    }
    FinalizedStubbedStep(prelim, path, a);
  }

  /** An artifact stored as its shallow form, off the path, whose dependees
      each finalise to themselves, finalises to itself. */
  lemma FinalizedStubbedStep(
    prelim: map<ArtifactCoordinates, DeeplyAnalyzedArtifact>, path: set<ArtifactCoordinates>, a: DeeplyAnalyzedArtifact)
    requires a.artifact in prelim && prelim[a.artifact] == Shallow(a) && a.artifact !in path
    requires forall i :: 0 <= i < |a.dependees| ==>
      Finalized(prelim, path + {a.artifact}, a.dependees[i].artifact) == Ok(a.dependees[i])
    ensures Finalized(prelim, path, a.artifact) == Ok(a)
  {
    FinalizedAllStubs(prelim, path + {a.artifact}, a.dependees);
  }

  /** Dependee stubs whose coordinates each finalise to an artifact
      finalise, together, to those artifacts. */
  lemma FinalizedAllStubs(
    prelim: map<ArtifactCoordinates, DeeplyAnalyzedArtifact>, path: set<ArtifactCoordinates>,
    ds: seq<DeeplyAnalyzedArtifact>)
    requires forall i :: 0 <= i < |ds| ==> Finalized(prelim, path, ds[i].artifact) == Ok(ds[i])
    ensures FinalizedAll(prelim, path, Stubs(ds)) == Ok(ds)
  {
    var stubs := Stubs(ds);
    assert forall i :: 0 <= i < |stubs| ==> stubs[i].artifact == ds[i].artifact;
    FinalizedAllOk(prelim, path, stubs);
    var r := FinalizedAll(prelim, path, stubs);
    assert r.Ok?;
    FinalizedAllValues(prelim, path, stubs);
    assert r.value == ds by {
      forall i | 0 <= i < |ds| ensures r.value[i] == ds[i] {
        assert Finalized(prelim, path, stubs[i].artifact) == Ok(ds[i]);
      }
    }
  }

  /** A set sorted alphabetically holds each coordinates once, so the read
      back set, holding the same artifacts, is the written one. */
  lemma ReadBackStubbed(
    prelim: map<ArtifactCoordinates, DeeplyAnalyzedArtifact>,
    artifacts: seq<DeeplyAnalyzedArtifact>, sorted: seq<DeeplyAnalyzedArtifact>)
    requires Sorted(artifacts, Key) && Stubbed(prelim, artifacts)
    requires ReadBack(prelim, sorted)
    ensures sorted == artifacts
  {
    forall a | a in artifacts ensures Finalized(prelim, {}, a.artifact) == Ok(a) {
      assert Deeper(artifacts, {}, Depth(a));
      FinalizedStubbed(prelim, artifacts, {}, a);
    }
    forall y | y in sorted ensures y in artifacts {
      var i :| 0 <= i < |sorted| && sorted[i] == y;
      assert Finalized(prelim, {}, y.artifact) == Ok(y);
      var a :| a in artifacts && a.artifact == y.artifact;
    }
    SortedSameElements(sorted, artifacts, Key);
  }

  /** Writing a self-contained set and reading the lines back gives the
      same set: the lines parse, every dependee appears as an artifact, no
      dependee cycle exists, and the finalised, sorted artifacts are the
      written ones. */
  lemma ReadOfWritten(artifacts: seq<DeeplyAnalyzedArtifact>)
    requires SelfContained(artifacts)
    ensures Preliminary(FileLines(artifacts)) == Ok(Loaded(map[], artifacts))
    ensures Closed(Loaded(map[], artifacts)) && Acyclic(Loaded(map[], artifacts))
    ensures forall sorted :: ReadBack(Loaded(map[], artifacts), sorted) ==> sorted == artifacts
  {
    PreliminaryOfWritten(artifacts);
    var prelim := Loaded(map[], artifacts);
    LoadedSelfContained(artifacts);
    RankedStubbed(prelim, artifacts);
    forall sorted | ReadBack(prelim, sorted) ensures sorted == artifacts {
      ReadBackStubbed(prelim, artifacts, sorted);
    }
  }

  // ---------------------------------------------------------------------
  // The result file

  /** A result file: the analysed artifacts, a set ordered alphabetically by
      coordinates, and the lines of the file on disk. */
  class ResultFile {
    var artifacts: seq<DeeplyAnalyzedArtifact>
    var file: seq<string>

    ghost predicate Valid()
      reads this
    {
      Sorted(artifacts, Key)
    }

    /** `empty`: no artifacts, and a newly created, empty file. */
    constructor Empty()
      ensures Valid() && artifacts == [] && file == []
    {
      artifacts := [];
      file := [];
    }

    /** The private constructor, over a file and the set read from it. */
    constructor Holding(file: seq<string>, artifacts: seq<DeeplyAnalyzedArtifact>)
      requires Sorted(artifacts, Key)
      ensures Valid() && this.artifacts == artifacts && this.file == file
    {
      this.artifacts := artifacts;
      this.file := file;
    }

    /** `read`: the file's artifacts, read, finalised and sorted. */
    static method Read(lines: seq<string>) returns (r: Result<ResultFile>)
      ensures Preliminary(lines).Err? ==> r == Err(Preliminary(lines).error)
      ensures Preliminary(lines).Ok? ==> (r.Ok? <==> Closed(Preliminary(lines).value) && Acyclic(Preliminary(lines).value))
      ensures Preliminary(lines).Ok? && r.Err? ==> r.error == NullPointer || r.error == StackOverflow
      ensures r.Ok? ==> fresh(r.value) && r.value.Valid() && r.value.file == lines
      ensures r.Ok? ==> Preliminary(lines).Ok? && ReadBack(Preliminary(lines).value, r.value.artifacts)
    {
      var artifacts :- ReadFile(lines);
      var resultFile := new ResultFile.Holding(lines, artifacts);
      return Ok(resultFile);
    }

    /** `addArtifacts`: each artifact added to the set in turn, so one whose
        coordinates are already there leaves the set unchanged. */
    method AddArtifacts(added: seq<DeeplyAnalyzedArtifact>)
      requires Valid()
      modifies this
      ensures Valid() && artifacts == AddAll(old(artifacts), added, Key) && file == old(file)
      ensures Keys(artifacts, Key) == Keys(old(artifacts), Key) + Keys(added, Key)
    {
      var current := artifacts;
      for i := 0 to |added|
        invariant current == AddAll(old(artifacts), added[..i], Key)
        modifies {}
      {
        AddAllStep(old(artifacts), added, i, Key);
        current := Add(current, added[i], Key);
      }
      assert added[..|added|] == added;
      AddAllSpec(old(artifacts), added, Key);
      artifacts := current;
    }

    /** `write`: the file replaced by the blocks of the artifacts, in the
        set's order. */
    method Write()
      modifies this
      ensures file == FileLines(artifacts) && artifacts == old(artifacts)
    {
      var lines: seq<string> := [];
      var all := artifacts;
      for i := 0 to |all|
        invariant lines == FileLines(all[..i])
        modifies {}
      {
        var block := WriteArtifact(all[i]);
        FileLinesStep(all, i);
        lines := lines + block;
      }
      assert all[..|all|] == all;
      file := lines;
    }
  }
}
