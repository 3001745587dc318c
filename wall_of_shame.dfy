/** The wall of shame: the wall, plus the list of artifacts added since the
    last commit, from which the commit message is made. */
module WallsOfShame {
  import opened Strings
  import opened Coordinates
  import opened Markers
  import opened CompletedArtifacts
  import opened Walls

  /** The enum constant's name, as `toString` gives it. */
  function TransitiveName(m: Transitive): (name: string)
    ensures |name| > 0 && '\n' !in name
  {
    match m
    case UNKNOWN => "UNKNOWN"
    case NONE => "NONE"
    case INDIRECT => "INDIRECT"
    case DIRECT => "DIRECT"
  }

  lemma TransitiveNameInjective(m: Transitive, n: Transitive)
    ensures TransitiveName(m) == TransitiveName(n) <==> m == n
  {
    if m != n {
      assert TransitiveName(m)[0] != TransitiveName(n)[0] || |TransitiveName(m)| != |TransitiveName(n)|;
    }
  }

  /** One artifact in the commit message: its coordinates and its marker. */
  function Entry(a: CompletedArtifact): string
  {
    ArtifactString(a.artifact) + ": " + TransitiveName(a.transitiveMarker)
  }

  function Entries(added: seq<CompletedArtifact>): (es: seq<string>)
    ensures |es| == |added| && forall i :: 0 <= i < |added| ==> es[i] == Entry(added[i])
  {
    seq(|added|, i requires 0 <= i < |added| => Entry(added[i]))
  }

  const Header := "Publish new results\n"
  const Bullet := "\n * "

  /** `createCommitMessage`: the header, then the entries joined by
      `Collectors.joining` with the bullet as delimiter and as prefix and a
      line break as suffix. */
  function CommitMessage(added: seq<CompletedArtifact>): string
  {
    Header + Bullet + Join(Entries(added), Bullet) + "\n"
  }

  /** The lines a bulleted entry takes. */
  function Bulleted(es: seq<string>): (bs: seq<string>)
    ensures |bs| == |es| && forall i :: 0 <= i < |es| ==> bs[i] == " * " + es[i]
  {
    seq(|es|, i requires 0 <= i < |es| => " * " + es[i])
  }

  lemma {:induction false} JoinBulleted(es: seq<string>)
    requires |es| >= 1
    ensures " * " + Join(es, Bullet) == Join(Bulleted(es), "\n")
  {
    if |es| > 1 {
      JoinBulleted(es[1..]);
      assert Bulleted(es)[1..] == Bulleted(es[1..]);
      calc {
        " * " + Join(es, Bullet);
        " * " + (es[0] + Bullet + Join(es[1..], Bullet));
        (" * " + es[0]) + "\n" + (" * " + Join(es[1..], Bullet));
        Join(Bulleted(es), "\n");
      }
    }
  }

  lemma {:induction false} JoinEmptyLast(parts: seq<string>, sep: string)
    requires |parts| >= 1
    ensures Join(parts + [""], sep) == Join(parts, sep) + sep
  {
    var ps := parts + [""];
    assert ps[1..] == parts[1..] + [""];
    if |parts| > 1 {
      JoinEmptyLast(parts[1..], sep);
    }
  }

  lemma JoinCons(h: string, rest: seq<string>, sep: string)
    requires |rest| >= 1
    ensures Join([h] + rest, sep) == h + sep + Join(rest, sep)
  {
    assert ([h] + rest)[1..] == rest;
  }

  /** The lines of the message of a non-empty commit, joined. */
  function MessageLines(added: seq<CompletedArtifact>): seq<string>
  {
    ["Publish new results", ""] + Bulleted(Entries(added)) + [""]
  }

  lemma CommitMessageJoined(added: seq<CompletedArtifact>)
    requires added != []
    ensures CommitMessage(added) == Join(MessageLines(added), "\n")
  {
    var es := Entries(added);
    var bs := Bulleted(es);
    var title := "Publish new results";
    JoinBulleted(es);
    JoinEmptyLast(bs, "\n");
    JoinCons("", bs + [""], "\n");
    JoinCons(title, [""] + (bs + [""]), "\n");
    assert MessageLines(added) == [title] + ([""] + (bs + [""]));
    assert Header == title + "\n" && Bullet == "\n" + " * ";
    Regroup(title, "\n", " * ", Join(es, Bullet), Join(bs, "\n"));
  }

  lemma Regroup(t: string, nl: string, star: string, joined: string, lines: string)
    requires star + joined == lines
    ensures (t + nl) + (nl + star) + joined + nl == t + nl + ("" + nl + (lines + nl))
  {
  }

  /** No entry spans more than one line when the coordinates do not. */
  lemma EntryOneLine(a: CompletedArtifact)
    requires '\n' !in a.artifact.groupId && '\n' !in a.artifact.artifactId && '\n' !in a.artifact.version
    ensures '\n' !in " * " + Entry(a)
  {
    var c := a.artifact;
    ArtifactStringShape(c);
    assert " * " + Entry(a) == " * " + c.groupId + ":" + c.artifactId + ":" + c.version + ": " + TransitiveName(a.transitiveMarker);
  }

  /** Line by line, the message of a non-empty commit is the header, an empty
      line, one bulleted line per added artifact in the order they were
      added, and nothing after the last line break. */
  lemma CommitMessageLines(added: seq<CompletedArtifact>)
    requires added != []
    requires forall a :: a in added ==>
      '\n' !in a.artifact.groupId && '\n' !in a.artifact.artifactId && '\n' !in a.artifact.version
    ensures SplitAll(CommitMessage(added), "\n")
         == ["Publish new results", ""] + Bulleted(Entries(added)) + [""]
  {
    var parts := MessageLines(added);
    CommitMessageJoined(added);
    MessageLinesOneLine(added);
    SplitAllJoin(parts, '\n');
  }

  lemma MessageLinesOneLine(added: seq<CompletedArtifact>)
    requires forall a :: a in added ==>
      '\n' !in a.artifact.groupId && '\n' !in a.artifact.artifactId && '\n' !in a.artifact.version
    ensures forall k :: 0 <= k < |MessageLines(added)| ==> '\n' !in MessageLines(added)[k]
  {
    var parts := MessageLines(added);
    var bs := Bulleted(Entries(added));
    assert parts == ["Publish new results", ""] + bs + [""];
    forall k | 0 <= k < |parts| ensures '\n' !in parts[k] {
      if 2 <= k < |parts| - 1 {
        assert parts[k] == bs[k - 2] == " * " + Entry(added[k - 2]);
        assert added[k - 2] in added;
        EntryOneLine(added[k - 2]);
      }
    }
  }

  /** With nothing added, the message still ends in an empty bullet. */
  lemma CommitMessageNothingAdded()
    ensures CommitMessage([]) == "Publish new results\n\n * \n"
  {
    assert Entries([]) == [];
  }

  class WallOfShame {
    const wall: Wall
    var addedSinceLastCommit: seq<CompletedArtifact>

    ghost predicate Valid()
      reads this, wall, wall.Bricks()
    {
      wall.Valid()
    }

    /** `openExistingDirectory`: a wall of the files with no artifacts, and
        nothing added since the last commit. */
    constructor OpenExistingDirectory(files: WallFiles)
      ensures Valid() && fresh(wall) && fresh(wall.Bricks())
      ensures wall.Contents() == NoArtifacts
      ensures wall.Files() == PerMarker(
        files.unknownDependencies.file, files.noDependencies.file,
        files.indirectDependencies.file, files.directDependencies.file)
      ensures addedSinceLastCommit == []
    {
      wall := new Wall.Of(files, []);
      addedSinceLastCommit := [];
    }

    /** `addArtifacts`: each artifact in turn. */
    method AddArtifacts(artifacts: seq<CompletedArtifact>)
      requires Valid()
      modifies this, wall.Bricks()
      ensures Valid()
      ensures addedSinceLastCommit == old(addedSinceLastCommit) + artifacts
      ensures wall.Contents() == RouteAll(old(wall.Contents()), artifacts)
      ensures wall.Files() == old(wall.Files())
    {
      for i := 0 to |artifacts|
        invariant Valid()
        invariant addedSinceLastCommit == old(addedSinceLastCommit) + artifacts[..i]
        invariant wall.Contents() == RouteAll(old(wall.Contents()), artifacts[..i])
        invariant wall.Files() == old(wall.Files())
      {
        assert artifacts[..i + 1][..i] == artifacts[..i];
        assert artifacts[..i + 1] == artifacts[..i] + [artifacts[i]];
        AddArtifact(artifacts[i]);
      }
      assert artifacts[..|artifacts|] == artifacts;
    }

    /** `addArtifact`: to the wall, and to the list for the next commit. */
    method AddArtifact(a: CompletedArtifact)
      requires Valid()
      modifies this, wall.BrickFor(a.transitiveMarker)
      ensures Valid()
      ensures addedSinceLastCommit == old(addedSinceLastCommit) + [a]
      ensures wall.Contents() == Route(old(wall.Contents()), a)
      ensures wall.Files() == old(wall.Files())
    {
      wall.AddArtifact(a);
      addedSinceLastCommit := addedSinceLastCommit + [a];
    }

    /** `write`: the wall writes its bricks. */
    method Write()
      requires Valid()
      modifies wall.Bricks()
      ensures Valid()
      ensures wall.Contents() == old(wall.Contents())
      ensures wall.Files() == Pages(wall.FrontMatters(), wall.Contents())
    {
      wall.Write();
    }

    /** `commit`: Git commits every file with the message made from the
        artifacts added since the last commit; `committed` says whether
        `commitAll` returned normally, and only then is the list cleared. */
    method Commit(committed: bool) returns (message: string)
      modifies this
      ensures message == CommitMessage(old(addedSinceLastCommit))
      ensures addedSinceLastCommit == if committed then [] else old(addedSinceLastCommit)
    {
      message := CommitMessage(addedSinceLastCommit);
      if committed {
        addedSinceLastCommit := [];
      }
    }
  }
}
