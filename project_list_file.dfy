/** The plain text list of projects to analyse: comment lines, one blank line,
    then one "groupId:artifactId" per line. Reading the file from disk is not
    modelled; a file is its sequence of lines. */
module ProjectLists {
  import opened Wrappers
  import opened Strings
  import opened Coordinates

  /** A line that `trim().isEmpty()` accepts. */
  predicate Blank(line: string)
  {
    Trim(line) == []
  }

  /** Which lines are blank, line by line. */
  function BlankFlags(lines: seq<string>): (flags: seq<bool>)
    ensures |flags| == |lines|
    ensures forall j :: 0 <= j < |lines| ==> (flags[j] <==> Blank(lines[j]))
  {
    seq(|lines|, j requires 0 <= j < |lines| => Blank(lines[j]))
  }

  /** The index of the first `true` at or after `from`, if any. */
  function FirstTrueFrom(flags: seq<bool>, from: nat): (r: Option<nat>)
    requires from <= |flags|
    ensures r.Some? ==> from <= r.value < |flags| && flags[r.value]
    ensures r.Some? ==> forall j :: from <= j < r.value ==> !flags[j]
    ensures r.None? ==> forall j :: from <= j < |flags| ==> !flags[j]
    decreases |flags| - from
  {
    if from == |flags| then None
    else if flags[from] then Some(from)
    else FirstTrueFrom(flags, from + 1)
  }

  /** The index of the blank line that separates the comments from the
      projects, if the file has one. */
  function FirstBlank(lines: seq<string>): (r: Option<nat>)
    ensures r.Some? ==> r.value < |lines| && Blank(lines[r.value])
    ensures r.Some? ==> forall j :: 0 <= j < r.value ==> !Blank(lines[j])
    ensures r.None? ==> forall j :: 0 <= j < |lines| ==> !Blank(lines[j])
  {
    FirstTrueFrom(BlankFlags(lines), 0)
  }

  /** What is left of the lines once the comments and the first blank line
      are skipped: nothing when there is no blank line. */
  function AfterComments(lines: seq<string>): seq<string>
  {
    match FirstBlank(lines)
    case Some(k) => lines[k + 1..]
    case None => []
  }

  /** `fastForwardPastComments`: consumes lines up to and including the first
      blank one, or all of them. */
  method FastForwardPastComments(lines: seq<string>) returns (rest: seq<string>)
    ensures rest == AfterComments(lines)
  {
    var foundEmptyLine := false;
    var i := 0;
    while !foundEmptyLine && i < |lines|
      invariant i <= |lines|
      invariant foundEmptyLine ==> 1 <= i && Blank(lines[i - 1])
      invariant forall j :: 0 <= j < (if foundEmptyLine then i - 1 else i) ==> !Blank(lines[j])
    {
      foundEmptyLine := Trim(lines[i]) == [];
      i := i + 1;
    }
    if foundEmptyLine {
      FirstBlankAt(lines, i - 1);
    } else {
      NoFirstBlank(lines);
    }
    rest := lines[i..];
  }

  /** A blank line with no blank line before it is the first one. */
  lemma FirstBlankAt(lines: seq<string>, k: nat)
    requires k < |lines| && Blank(lines[k])
    requires forall j :: 0 <= j < k ==> !Blank(lines[j])
    ensures FirstBlank(lines) == Some(k)
  {
  }

  /** Without a blank line there is no first one. */
  lemma NoFirstBlank(lines: seq<string>)
    requires forall j :: 0 <= j < |lines| ==> !Blank(lines[j])
    ensures FirstBlank(lines) == None
  {
  }

  /** A file laid out as documented (comment lines without a blank one, a
      blank line, the project lines) yields exactly its project lines. */
  lemma AfterCommentsOfLayout(comments: seq<string>, blank: string, projects: seq<string>)
    requires forall j :: 0 <= j < |comments| ==> !Blank(comments[j])
    requires Blank(blank)
    ensures AfterComments(comments + [blank] + projects) == projects
  {
    var lines := comments + [blank] + projects;
    var k := |comments|;
    forall j | 0 <= j < k ensures !Blank(lines[j]) {
      assert lines[j] == comments[j];
    }
    FirstBlankAt(lines, k);
    assert lines[k + 1..] == projects;
  }

  /** Without a blank line every line is taken for a comment: no project is
      ever read. */
  lemma NoBlankLineNoProjects(lines: seq<string>)
    requires forall j :: 0 <= j < |lines| ==> !Blank(lines[j])
    ensures AfterComments(lines) == []
  {
  }

  /** `readLine`: the first two pieces of the ':'-split line; fewer than two
      pieces make the array access fail. */
  function ReadLine(line: string): (r: Result<ProjectCoordinates>)
    ensures r.Ok? <==> |JavaSplit(line, ":")| >= 2
    ensures r.Err? ==> r.error == IndexOutOfBounds
    ensures r.Ok? ==> ':' !in r.value.groupId && ':' !in r.value.artifactId
  {
    JavaSplitPieces(line, ':');
    var coordinates := JavaSplit(line, ":");
    if |coordinates| < 2 then Err(IndexOutOfBounds)
    else Ok(ProjectCoordinates(coordinates[0], coordinates[1]))
  }

  /** A project written as its `toString` reads back as that project. */
  lemma ReadLineOfProjectString(p: ProjectCoordinates)
    requires ':' !in p.groupId && ':' !in p.artifactId && p.artifactId != []
    ensures ReadLine(ProjectString(p)) == Ok(p)
  {
    JavaSplitJoin([p.groupId, p.artifactId], ':');
    assert [p.groupId, p.artifactId][1..] == [p.artifactId];
  }

  /** Pieces after the second are ignored. */
  lemma ReadLineIgnoresExtraPieces(p: ProjectCoordinates, extra: string)
    requires ':' !in p.groupId && ':' !in p.artifactId && ':' !in extra && extra != []
    ensures ReadLine(p.groupId + ":" + p.artifactId + ":" + extra) == Ok(p)
  {
    var parts := [p.groupId, p.artifactId, extra];
    JavaSplitJoin(parts, ':');
    assert parts[1..] == [p.artifactId, extra];
    assert parts[1..][1..] == [extra];
    assert Join(parts[1..], ":") == p.artifactId + ":" + extra;
    Associative(p.groupId + ":", p.artifactId + ":", extra);
    assert Join(parts, ":") == p.groupId + ":" + p.artifactId + ":" + extra;
  }

  /** A line without ':' is a single piece, so it fails. */
  lemma ReadLineRejectsSinglePiece(line: string)
    requires ':' !in line
    ensures ReadLine(line) == Err(IndexOutOfBounds)
  {
    IndexOfCharFree(line, ':');
  }

  /** `ProjectListFile`: the file's lines and, once opened, the iterator over
      the lines not read yet. */
  class ProjectListFile {
    const file: seq<string>
    var openedFile: Option<seq<string>>

    constructor (file: seq<string>)
      ensures this.file == file && openedFile.None?
    {
      this.file := file;
      openedFile := None;
    }

    /** `open`: a fresh iterator over the file, past its comments. */
    method Open()
      modifies this
      ensures openedFile == Some(AfterComments(file))
    {
      var rest := FastForwardPastComments(file);
      openedFile := Some(rest);
    }

    /** `readNextProject`: the next line as a project, or empty once the lines
        are used up. Before `open` the iterator is null. The line is consumed
        even when it does not parse. */
    method ReadNextProject() returns (r: Result<Option<ProjectCoordinates>>)
      modifies this
      ensures old(openedFile).None? ==> r == Err(NullPointer) && openedFile.None?
      ensures old(openedFile) == Some([]) ==> r == Ok(None) && openedFile == Some([])
      ensures old(openedFile).Some? && old(openedFile).value != [] ==>
        && openedFile == Some(old(openedFile).value[1..])
        && (ReadLine(old(openedFile).value[0]).Ok? ==> r == Ok(Some(ReadLine(old(openedFile).value[0]).value)))
        && (ReadLine(old(openedFile).value[0]).Err? ==> r == Err(ReadLine(old(openedFile).value[0]).error))
    {
      match openedFile
      case None =>
        r := Err(NullPointer);
      case Some(remaining) =>
        if remaining == [] {
          r := Ok(None);
        } else {
          openedFile := Some(remaining[1..]);
          var p := ReadLine(remaining[0]);
          if p.Ok? {
            r := Ok(Some(p.value));
          } else {
            r := Err(p.error);
          }
        }
    }
  }
}
