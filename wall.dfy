/** The wall: one brick (one post file) per transitive marker, each artifact
    going to the brick of its own marker. */
module Walls {
  import opened Markers
  import opened CompletedArtifacts
  import opened SortedSets
  import opened Bricks

  /** The contents `WallFiles` names for one brick: its front matter and its
      post file. */
  datatype BrickFiles = BrickFiles(frontMatter: seq<string>, file: seq<string>)

  datatype WallFiles = WallFiles(
    unknownDependencies: BrickFiles,
    noDependencies: BrickFiles,
    indirectDependencies: BrickFiles,
    directDependencies: BrickFiles)

  /** One value per transitive marker, as the wall's enum map holds one
      brick per marker. */
  datatype PerMarker<T> = PerMarker(unknown: T, none: T, indirect: T, direct: T)
  {
    function Get(m: Transitive): T
    {
      match m
      case UNKNOWN => unknown
      case NONE => none
      case INDIRECT => indirect
      case DIRECT => direct
    }

    function Set(m: Transitive, v: T): (r: PerMarker<T>)
      ensures r.Get(m) == v
      ensures forall n :: n != m ==> r.Get(n) == Get(n)
    {
      match m
      case UNKNOWN => this.(unknown := v)
      case NONE => this.(none := v)
      case INDIRECT => this.(indirect := v)
      case DIRECT => this.(direct := v)
    }
  }

  /** The artifacts carrying the marker `m`, in the order they come. */
  function Routed(artifacts: seq<CompletedArtifact>, m: Transitive): seq<CompletedArtifact>
  {
    if artifacts == [] then []
    else
      var last := artifacts[|artifacts| - 1];
      Routed(artifacts[..|artifacts| - 1], m) + (if last.transitiveMarker == m then [last] else [])
  }

  /** Routing keeps exactly the artifacts of the marker. */
  lemma {:induction false} RoutedMembers(artifacts: seq<CompletedArtifact>, m: Transitive)
    ensures forall a :: a in Routed(artifacts, m) <==> a in artifacts && a.transitiveMarker == m
  {
    if artifacts != [] {
      var init := artifacts[..|artifacts| - 1];
      RoutedMembers(init, m);
      assert artifacts == init + [artifacts[|artifacts| - 1]];
    }
  }

  lemma RoutedSnoc(artifacts: seq<CompletedArtifact>, a: CompletedArtifact, m: Transitive)
    ensures Routed(artifacts + [a], m) == Routed(artifacts, m) + (if a.transitiveMarker == m then [a] else [])
  {
    assert (artifacts + [a])[..|artifacts|] == artifacts;
  }

  /** Every artifact goes to exactly one brick: the four routed sequences
      together hold each artifact as often as the input does. */
  lemma {:induction false} RoutedPartition(artifacts: seq<CompletedArtifact>)
    ensures multiset(Routed(artifacts, Transitive.UNKNOWN)) + multiset(Routed(artifacts, Transitive.NONE))
          + multiset(Routed(artifacts, Transitive.INDIRECT)) + multiset(Routed(artifacts, Transitive.DIRECT))
         == multiset(artifacts)
  {
    if artifacts != [] {
      var init := artifacts[..|artifacts| - 1];
      var last := artifacts[|artifacts| - 1];
      assert artifacts == init + [last];
      RoutedPartition(init);
      RoutedSnoc(init, last, Transitive.UNKNOWN);
      RoutedSnoc(init, last, Transitive.NONE);
      RoutedSnoc(init, last, Transitive.INDIRECT);
      RoutedSnoc(init, last, Transitive.DIRECT);
    }
  }

  /** What a brick holds after the artifacts were added one by one to an
      empty set: every routed artifact's coordinates, in ascending order. */
  lemma RoutedContents(artifacts: seq<CompletedArtifact>, m: Transitive)
    ensures Sorted(AddAll([], Routed(artifacts, m), Key), Key)
    ensures Keys(AddAll([], Routed(artifacts, m), Key), Key)
         == set a | a in artifacts && a.transitiveMarker == m :: Key(a)
  {
    var r := Routed(artifacts, m);
    RoutedMembers(artifacts, m);
    AddAllSpec([], r, Key);
    assert Keys([], Key) == {};
    forall k | k in Keys(r, Key) ensures k in set a | a in artifacts && a.transitiveMarker == m :: Key(a) {
      var i :| 0 <= i < |r| && Key(r[i]) == k;
      assert r[i] in r;
    }
    forall k | k in (set a | a in artifacts && a.transitiveMarker == m :: Key(a)) ensures k in Keys(r, Key) {
      var a :| a in artifacts && a.transitiveMarker == m && Key(a) == k;
      var i :| 0 <= i < |r| && r[i] == a;
    }
  }

  /** `addArtifact` on what the bricks hold: the set of the artifact's
      marker adds it, the other sets stay as they are. */
  function Route(contents: PerMarker<seq<CompletedArtifact>>, a: CompletedArtifact): PerMarker<seq<CompletedArtifact>>
  {
    contents.Set(a.transitiveMarker, Add(contents.Get(a.transitiveMarker), a, Key))
  }

  /** `artifacts.forEach(wall::addArtifact)`. */
  function RouteAll(contents: PerMarker<seq<CompletedArtifact>>, artifacts: seq<CompletedArtifact>): PerMarker<seq<CompletedArtifact>>
  {
    if artifacts == [] then contents
    else Route(RouteAll(contents, artifacts[..|artifacts| - 1]), artifacts[|artifacts| - 1])
  }

  /** Routing one more artifact routes it into what the prefix gave. */
  lemma RouteAllStep(contents: PerMarker<seq<CompletedArtifact>>, artifacts: seq<CompletedArtifact>, i: nat)
    requires i < |artifacts|
    ensures RouteAll(contents, artifacts[..i + 1]) == Route(RouteAll(contents, artifacts[..i]), artifacts[i])
  {
    assert artifacts[..i + 1][..i] == artifacts[..i];
  }

  const NoArtifacts: PerMarker<seq<CompletedArtifact>> := PerMarker([], [], [], [])

  /** Adding the artifacts one by one to empty bricks leaves in each brick
      the artifacts of its marker, added in the order they came. */
  lemma {:induction false} RouteAllRouted(artifacts: seq<CompletedArtifact>, m: Transitive)
    ensures RouteAll(NoArtifacts, artifacts).Get(m) == AddAll([], Routed(artifacts, m), Key)
  {
    if artifacts != [] {
      var init := artifacts[..|artifacts| - 1];
      var last := artifacts[|artifacts| - 1];
      RouteAllRouted(init, m);
      assert artifacts == init + [last];
      RoutedSnoc(init, last, m);
      if last.transitiveMarker == m {
        AddAllSnoc([], Routed(init, m), last, Key);
      } else {
        assert Routed(init, m) + [] == Routed(init, m);
      }
    }
  }

  /** Each brick of a wall made from a sequence of artifacts is sorted and
      holds the coordinates of exactly the artifacts of its marker. */
  lemma WallContents(artifacts: seq<CompletedArtifact>, m: Transitive)
    ensures Sorted(RouteAll(NoArtifacts, artifacts).Get(m), Key)
    ensures Keys(RouteAll(NoArtifacts, artifacts).Get(m), Key)
         == set a | a in artifacts && a.transitiveMarker == m :: Key(a)
  {
    RouteAllRouted(artifacts, m);
    RoutedContents(artifacts, m);
  }

  /** Every brick's page. */
  function Pages(frontMatters: PerMarker<seq<string>>, contents: PerMarker<seq<CompletedArtifact>>): PerMarker<seq<string>>
  {
    PerMarker(
      Page(frontMatters.unknown, contents.unknown),
      Page(frontMatters.none, contents.none),
      Page(frontMatters.indirect, contents.indirect),
      Page(frontMatters.direct, contents.direct))
  }

  class Wall {
    const unknownDependencies: Brick
    const noDependencies: Brick
    const indirectDependencies: Brick
    const directDependencies: Brick

    /** `bricks.get(marker)`: the enum map holds a brick for every marker. */
    function BrickFor(m: Transitive): Brick
    {
      match m
      case UNKNOWN => unknownDependencies
      case NONE => noDependencies
      case INDIRECT => indirectDependencies
      case DIRECT => directDependencies
    }

    ghost function Bricks(): set<Brick>
    {
      {unknownDependencies, noDependencies, indirectDependencies, directDependencies}
    }

    /** The sets the bricks hold. */
    ghost function Contents(): PerMarker<seq<CompletedArtifact>>
      reads Bricks()
    {
      PerMarker(unknownDependencies.artifacts, noDependencies.artifacts,
                indirectDependencies.artifacts, directDependencies.artifacts)
    }

    /** The bricks' post files. */
    ghost function Files(): PerMarker<seq<string>>
      reads Bricks()
    {
      PerMarker(unknownDependencies.file, noDependencies.file,
                indirectDependencies.file, directDependencies.file)
    }

    ghost function FrontMatters(): PerMarker<seq<string>>
    {
      PerMarker(unknownDependencies.frontMatter, noDependencies.frontMatter,
                indirectDependencies.frontMatter, directDependencies.frontMatter)
    }

    ghost predicate Valid()
      reads this, Bricks()
    {
      && unknownDependencies != noDependencies && unknownDependencies != indirectDependencies
      && unknownDependencies != directDependencies && noDependencies != indirectDependencies
      && noDependencies != directDependencies && indirectDependencies != directDependencies
      && unknownDependencies.Valid() && noDependencies.Valid()
      && indirectDependencies.Valid() && directDependencies.Valid()
    }

    /** `of(files, artifacts)`: a brick per marker made from its files, then
        each artifact added to the brick of its marker; `of(files)` is the
        same with no artifacts. */
    constructor Of(files: WallFiles, artifacts: seq<CompletedArtifact>)
      ensures Valid() && fresh(Bricks())
      ensures FrontMatters() == PerMarker(
        files.unknownDependencies.frontMatter, files.noDependencies.frontMatter,
        files.indirectDependencies.frontMatter, files.directDependencies.frontMatter)
      ensures Files() == PerMarker(
        files.unknownDependencies.file, files.noDependencies.file,
        files.indirectDependencies.file, files.directDependencies.file)
      ensures Contents() == RouteAll(NoArtifacts, artifacts)
    {
      unknownDependencies := new Brick.Of(files.unknownDependencies.frontMatter, files.unknownDependencies.file);
      noDependencies := new Brick.Of(files.noDependencies.frontMatter, files.noDependencies.file);
      indirectDependencies := new Brick.Of(files.indirectDependencies.frontMatter, files.indirectDependencies.file);
      directDependencies := new Brick.Of(files.directDependencies.frontMatter, files.directDependencies.file);
      new;
      ghost var initialFiles := Files();
      for i := 0 to |artifacts|
        invariant Valid() && fresh(Bricks())
        invariant Files() == initialFiles
        invariant Contents() == RouteAll(NoArtifacts, artifacts[..i])
      {
        RouteAllStep(NoArtifacts, artifacts, i);
        AddArtifact(artifacts[i]);
      }
      assert artifacts[..|artifacts|] == artifacts;
    }

    /** `addArtifact`: the brick of the artifact's marker adds it as a brick
        does, and no other brick changes. */
    method AddArtifact(a: CompletedArtifact)
      requires Valid()
      modifies BrickFor(a.transitiveMarker)
      ensures Valid()
      ensures Contents() == Route(old(Contents()), a)
      ensures Files() == old(Files())
    {
      BrickFor(a.transitiveMarker).AddArtifact(a);
    }

    /** `write`: every brick writes its page, in the enum map's order
        (UNKNOWN, NONE, INDIRECT, DIRECT). */
    method Write()
      requires Valid()
      modifies Bricks()
      ensures Valid()
      ensures Contents() == old(Contents())
      ensures Files() == Pages(FrontMatters(), Contents())
    {
      unknownDependencies.Write();
      noDependencies.Write();
      indirectDependencies.Write();
      directDependencies.Write();
    }
  }
}
