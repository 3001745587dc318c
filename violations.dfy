/** A `Violation`: a type of the analysed artifact (the dependent) together
    with the JDK-internal types it uses, kept as a non-empty sorted list. */
module Violations {
  import opened Wrappers
  import opened Strings

  /** A Java type by package and simple class name; used both for the
      dependent `Type` and for an `InternalType`. */
  datatype Type = Type(packageName: string, className: string)

  function FullyQualifiedName(t: Type): string
  {
    t.packageName + "." + t.className
  }

  /** Natural order of types: by package name, then by class name. */
  function CompareTypes(a: Type, b: Type): int
  {
    CompareFields([a.packageName, a.className], [b.packageName, b.className])
  }

  lemma CompareTypesTotal(a: Type, b: Type, c: Type)
    ensures CompareTypes(a, b) == 0 <==> a == b
    ensures CompareTypes(b, a) == -CompareTypes(a, b)
    ensures CompareTypes(a, b) <= 0 && CompareTypes(b, c) <= 0 ==> CompareTypes(a, c) <= 0
  {
    var ka, kb, kc := [a.packageName, a.className], [b.packageName, b.className], [c.packageName, c.className];
    CompareFieldsZero(ka, kb);
    CompareFieldsZero(ka, kc);
    CompareFieldsZero(kb, kc);
    CompareFieldsAntisymmetric(ka, kb);
    if CompareTypes(a, b) < 0 && CompareTypes(b, c) < 0 {
      CompareFieldsTransitive(ka, kb, kc);
    }
  }

  /** Ascending in the natural order (duplicates allowed). */
  ghost predicate Ordered(xs: seq<Type>)
  {
    forall i, j :: 0 <= i < j < |xs| ==> CompareTypes(xs[i], xs[j]) <= 0
  }

  function Insert(x: Type, s: seq<Type>): seq<Type>
  {
    if s == [] || CompareTypes(x, s[0]) <= 0 then [x] + s
    else [s[0]] + Insert(x, s[1..])
  }

  /** `Ordering.natural().immutableSortedCopy`; an input that is already
      ordered is returned as it is, which is what sorting it gives too. */
  function Sort(xs: seq<Type>): seq<Type>
  {
    if xs == [] then [] else Insert(xs[0], Sort(xs[1..]))
  }

  lemma InsertInFront(x: Type, s: seq<Type>)
    requires Ordered(s)
    requires s == [] || CompareTypes(x, s[0]) <= 0
    ensures Ordered([x] + s)
  {
    var t := [x] + s;
    forall i, j | 0 <= i < j < |t| ensures CompareTypes(t[i], t[j]) <= 0 {
      if i == 0 {
        CompareTypesTotal(x, s[0], s[j - 1]);
      } else {
        assert t[i] == s[i - 1] && t[j] == s[j - 1];
      }
    }
  }

  /** Every element of the tail-insertion result is at least the head. */
  lemma InsertTailBound(x: Type, s: seq<Type>, r: seq<Type>)
    requires s != [] && Ordered(s) && CompareTypes(s[0], x) <= 0
    requires multiset(r) == multiset(s[1..]) + multiset{x}
    ensures forall j :: 0 <= j < |r| ==> CompareTypes(s[0], r[j]) <= 0
  {
    forall j | 0 <= j < |r| ensures CompareTypes(s[0], r[j]) <= 0 {
      assert r[j] in multiset(r);
      if r[j] != x {
        assert r[j] in multiset(s[1..]);
        var k :| 0 <= k < |s[1..]| && s[1..][k] == r[j];
        assert s[k + 1] == r[j];
      }
    }
  }

  lemma OrderedCons(y: Type, r: seq<Type>)
    requires Ordered(r)
    requires forall j :: 0 <= j < |r| ==> CompareTypes(y, r[j]) <= 0
    ensures Ordered([y] + r)
  {
    var t := [y] + r;
    forall i, j | 0 <= i < j < |t| ensures CompareTypes(t[i], t[j]) <= 0 {
      assert t[j] == r[j - 1];
      if i > 0 { assert t[i] == r[i - 1]; }
    }
  }

  lemma {:induction false} InsertSpec(x: Type, s: seq<Type>)
    requires Ordered(s)
    ensures Ordered(Insert(x, s))
    ensures multiset(Insert(x, s)) == multiset(s) + multiset{x}
  {
    if s == [] || CompareTypes(x, s[0]) <= 0 {
      InsertInFront(x, s);
    } else {
      var r := Insert(x, s[1..]);
      OrderedTail(s);
      InsertSpec(x, s[1..]);
      CompareTypesTotal(x, s[0], x);
      InsertBehindHead(x, s, r);
      InsertPastHead(x, s);
    }
  }

  lemma InsertPastHead(x: Type, s: seq<Type>)
    requires s != [] && CompareTypes(x, s[0]) > 0
    ensures Insert(x, s) == [s[0]] + Insert(x, s[1..])
  {
  }

  lemma OrderedTail(s: seq<Type>)
    requires s != [] && Ordered(s)
    ensures Ordered(s[1..])
  {
    forall i, j | 0 <= i < j < |s| - 1 ensures CompareTypes(s[1..][i], s[1..][j]) <= 0 {
      assert s[1..][i] == s[i + 1] && s[1..][j] == s[j + 1];
    }
  }

  /** Inserting behind the head of an ordered list keeps the head in front. */
  lemma InsertBehindHead(x: Type, s: seq<Type>, r: seq<Type>)
    requires s != [] && Ordered(s) && CompareTypes(s[0], x) <= 0
    requires Ordered(r) && multiset(r) == multiset(s[1..]) + multiset{x}
    ensures Ordered([s[0]] + r)
    ensures multiset([s[0]] + r) == multiset(s) + multiset{x}
  {
    InsertTailBound(x, s, r);
    OrderedCons(s[0], r);
    assert s == [s[0]] + s[1..];
  }

  /** The sorted copy is ordered and holds exactly the given types. */
  lemma {:induction false} SortSpec(xs: seq<Type>)
    ensures Ordered(Sort(xs))
    ensures multiset(Sort(xs)) == multiset(xs)
  {
    if xs != [] {
      SortSpec(xs[1..]);
      InsertSpec(xs[0], Sort(xs[1..]));
      HeadAndTail(xs);
    }
  }

  lemma HeadAndTail(xs: seq<Type>)
    requires xs != []
    ensures multiset(xs) == multiset(xs[1..]) + multiset{xs[0]}
    ensures multiset(xs[1..]) == multiset(xs) - multiset{xs[0]}
  {
    assert xs == [xs[0]] + xs[1..];
  }

  /** The head of an ordered list is below every element of it. */
  lemma OrderedHeadBelow(a: seq<Type>, x: Type)
    requires a != [] && Ordered(a) && x in multiset(a)
    ensures CompareTypes(a[0], x) <= 0
  {
    var i :| 0 <= i < |a| && a[i] == x;
    if i == 0 { CompareTypesTotal(x, x, x); }
  }

  /** Two ordered lists with the same elements are the same list. */
  lemma {:induction false} OrderedUnique(a: seq<Type>, b: seq<Type>)
    requires Ordered(a) && Ordered(b) && multiset(a) == multiset(b)
    ensures a == b
  {
    if a != [] {
      assert |b| == |a| by { assert |multiset(a)| == |multiset(b)|; }
      assert a[0] in multiset(a) && b[0] in multiset(b);
      OrderedHeadBelow(a, b[0]);
      OrderedHeadBelow(b, a[0]);
      CompareTypesTotal(a[0], b[0], a[0]);
      assert a[0] == b[0];
      HeadAndTail(a);
      HeadAndTail(b);
      OrderedTail(a);
      OrderedTail(b);
      OrderedUnique(a[1..], b[1..]);
      SameHeadSameTail(a, b);
    }
  }

  lemma SameHeadSameTail(a: seq<Type>, b: seq<Type>)
    requires a != [] && b != [] && a[0] == b[0] && a[1..] == b[1..]
    ensures a == b
  {
    assert a == [a[0]] + a[1..] && b == [b[0]] + b[1..];
  }

  datatype Violation = Violation(dependent: Type, internalDependencies: seq<Type>)

  /** What every constructed violation satisfies. */
  ghost predicate Valid(v: Violation)
  {
    v.internalDependencies != [] && Ordered(v.internalDependencies)
  }

  /** `buildFor`: IllegalArgumentException for no internal dependencies,
      otherwise a violation holding them sorted. */
  function BuildFor(dependent: Type, dependencies: seq<Type>): (r: Result<Violation>)
    ensures r.Err? <==> dependencies == []
    ensures r.Err? ==> r.error == IllegalArgument
    ensures r.Ok? ==> Valid(r.value) && r.value.dependent == dependent
    ensures r.Ok? ==> multiset(r.value.internalDependencies) == multiset(dependencies)
  {
    SortSpec(dependencies);
    if dependencies == [] then Err(IllegalArgument)
    else
      assert |Sort(dependencies)| == |dependencies| by {
        assert |multiset(Sort(dependencies))| == |multiset(dependencies)|;
      }
      Ok(Violation(dependent, Sort(dependencies)))
  }

  /** Equality ignores the order in which the dependencies were given, and an
      ordered input is kept as it is. */
  lemma BuildForOrderIrrelevant(d: Type, xs: seq<Type>, ys: seq<Type>)
    requires multiset(xs) == multiset(ys)
    ensures BuildFor(d, xs) == BuildFor(d, ys)
    ensures xs != [] && Ordered(xs) ==> BuildFor(d, xs) == Ok(Violation(d, xs))
  {
    SortSpec(xs);
    SortSpec(ys);
    OrderedUnique(Sort(xs), Sort(ys));
    if xs != [] && Ordered(xs) {
      OrderedUnique(Sort(xs), xs);
    }
  }

  /** The index loop of `compareTo` over the two sorted lists. */
  function CompareTypeLists(xs: seq<Type>, ys: seq<Type>): int
  {
    if xs == [] || ys == [] then |xs| - |ys|
    else if CompareTypes(xs[0], ys[0]) != 0 then CompareTypes(xs[0], ys[0])
    else CompareTypeLists(xs[1..], ys[1..])
  }

  /** `compareTo`: by dependent, then lexicographically over the lists. */
  function CompareViolations(v: Violation, w: Violation): int
  {
    if CompareTypes(v.dependent, w.dependent) != 0 then CompareTypes(v.dependent, w.dependent)
    else CompareTypeLists(v.internalDependencies, w.internalDependencies)
  }

  lemma {:induction false} CompareTypeListsZero(xs: seq<Type>, ys: seq<Type>)
    ensures CompareTypeLists(xs, ys) == 0 <==> xs == ys
    ensures CompareTypeLists(ys, xs) == -CompareTypeLists(xs, ys)
  {
    if xs != [] && ys != [] {
      CompareTypesTotal(xs[0], ys[0], ys[0]);
      if xs[0] == ys[0] {
        CompareTypeListsZero(xs[1..], ys[1..]);
        assert xs == [xs[0]] + xs[1..] && ys == [ys[0]] + ys[1..];
      }
    }
  }

  /** Of two lists where one is a proper prefix of the other, the shorter
      one is smaller. */
  lemma {:induction false} CompareTypeListsPrefix(xs: seq<Type>, ys: seq<Type>)
    requires |xs| < |ys| && xs == ys[..|xs|]
    ensures CompareTypeLists(xs, ys) < 0
  {
    if xs != [] {
      CompareTypesTotal(xs[0], ys[0], ys[0]);
      CompareTypeListsPrefix(xs[1..], ys[1..]);
    }
  }

  /** `compareTo` is consistent with equals and antisymmetric; the dependent
      decides first. */
  lemma CompareViolationsConsistent(v: Violation, w: Violation)
    ensures CompareViolations(v, w) == 0 <==> v == w
    ensures CompareViolations(w, v) == -CompareViolations(v, w)
    ensures v.dependent != w.dependent ==> CompareViolations(v, w) == CompareTypes(v.dependent, w.dependent)
  {
    CompareTypesTotal(v.dependent, w.dependent, w.dependent);
    CompareTypeListsZero(v.internalDependencies, w.internalDependencies);
  }

  function TypeStrings(ts: seq<Type>): (r: seq<string>)
    ensures |r| == |ts| && forall i :: 0 <= i < |ts| ==> r[i] == FullyQualifiedName(ts[i])
  {
    if ts == [] then [] else [FullyQualifiedName(ts[0])] + TypeStrings(ts[1..])
  }

  /** `toString`: "dependent -> {d1, d2, ...}". */
  function ViolationString(v: Violation): (s: string)
    ensures StartsWith(s, FullyQualifiedName(v.dependent) + " -> {")
    ensures s[|s| - 1] == '}'
  {
    var prefix := FullyQualifiedName(v.dependent) + " -> {";
    var s := prefix + Join(TypeStrings(v.internalDependencies), ", ") + "}";
    assert s[..|prefix|] == prefix;
    s
  }

  /** `toLines(allPrefix, dependencyPrefix)`: the prefixed dependent, then
      one line per internal dependency in sorted order. */
  function ToLines(v: Violation, allPrefix: string, dependencyPrefix: string): (lines: seq<string>)
    ensures |lines| == 1 + |v.internalDependencies|
    ensures lines[0] == allPrefix + FullyQualifiedName(v.dependent)
    ensures forall i :: 0 <= i < |v.internalDependencies| ==>
      lines[i + 1] == allPrefix + dependencyPrefix + FullyQualifiedName(v.internalDependencies[i])
  {
    [allPrefix + FullyQualifiedName(v.dependent)]
      + seq(|v.internalDependencies|, i requires 0 <= i < |v.internalDependencies| =>
          allPrefix + dependencyPrefix + FullyQualifiedName(v.internalDependencies[i]))
  }

  /** `toLines()`: four spaces before every line, "     -> " before each
      dependency. */
  function DefaultLines(v: Violation): (lines: seq<string>)
    ensures |lines| == 1 + |v.internalDependencies|
    ensures lines[0] == "    " + FullyQualifiedName(v.dependent)
    ensures forall i :: 0 <= i < |v.internalDependencies| ==>
      lines[i + 1] == "         -> " + FullyQualifiedName(v.internalDependencies[i])
  {
    ToLines(v, "    ", "     -> ")
  }

  /** `ViolationBuilder`: collects internal dependencies for one dependent. */
  class ViolationBuilder {
    const dependent: Type
    var internalDependencies: seq<Type>

    constructor (dependent: Type)
      ensures this.dependent == dependent && internalDependencies == []
    {
      this.dependent := dependent;
      internalDependencies := [];
    }

    method AddDependency(dependency: Type)
      modifies this
      ensures internalDependencies == old(internalDependencies) + [dependency]
    {
      internalDependencies := internalDependencies + [dependency];
    }

    /** Both `addDependencies` overloads: every given dependency, in order. */
    method AddDependencies(dependencies: seq<Type>)
      modifies this
      ensures internalDependencies == old(internalDependencies) + dependencies
    {
      var i := 0;
      while i < |dependencies|
        invariant 0 <= i <= |dependencies|
        invariant internalDependencies == old(internalDependencies) + dependencies[..i]
      {
        internalDependencies := internalDependencies + [dependencies[i]];
        i := i + 1;
      }
      assert dependencies[..i] == dependencies;
    }

    /** `build`: the IllegalArgumentException of an empty violation becomes an
        IllegalStateException. */
    function Build(): (r: Result<Violation>)
      reads this
      ensures r.Err? <==> internalDependencies == []
      ensures r.Err? ==> r.error == IllegalState
      ensures r.Ok? ==> Valid(r.value) && r.value.dependent == dependent
      ensures r.Ok? ==> multiset(r.value.internalDependencies) == multiset(internalDependencies)
    {
      match BuildFor(dependent, internalDependencies)
      case Ok(v) => Ok(v)
      case Err(_) => Err(IllegalState)
    }
  }
}
