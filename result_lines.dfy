/** The line format of the result file. An artifact is one header line
    "group:artifact:version <> MARKER", then one line "\tv: dependent -> internal"
    per internal dependency of each violation, then one line
    "\td: group:artifact:version <> MARKER" per dependee. This module holds the
    formatters for the three kinds of line, the parsers that read them back,
    and the proof that each parser undoes its formatter. */
module ResultLines {
  import opened Wrappers
  import opened Strings
  import opened Coordinates
  import opened Markers
  import opened Violations
  import opened Artifacts

  const ArtifactMarkerSeparator: string := " <> "
  const ViolationSeparator: string := " -> "
  const ViolationLinePrefix: string := "\tv: "
  const DependencyLinePrefix: string := "\td: "

  // ---------------------------------------------------------------------
  // Markers and type names

  /** The marker's enum constant name, as `toString` gives it. */
  function MarkerName(m: Internal): string
  {
    match m
    case NONE => "NONE"
    case INDIRECT => "INDIRECT"
    case DIRECT => "DIRECT"
  }

  /** `valueOf`: the constant with that name; IllegalArgumentException for
      any other text. */
  function MarkerOf(name: string): (r: Result<Internal>)
    ensures r.Ok? ==> MarkerName(r.value) == name
    ensures r.Err? ==> forall m: Internal :: MarkerName(m) != name
    ensures r.Err? ==> r.error == IllegalArgument
  {
    if name == "NONE" then Ok(Internal.NONE)
    else if name == "INDIRECT" then Ok(Internal.INDIRECT)
    else if name == "DIRECT" then Ok(Internal.DIRECT)
    else Err(IllegalArgument)
  }

  /** The position of the last `c` in `s`, if any. */
  function LastIndexOf(s: string, c: char): (r: Option<nat>)
    ensures r.Some? ==> r.value < |s| && s[r.value] == c && c !in s[r.value + 1..]
    ensures r.None? ==> c !in s
  {
    if s == [] then None
    else if s[|s| - 1] == c then Some(|s| - 1)
    else
      var r := LastIndexOf(s[..|s| - 1], c);
      assert r.Some? ==> s[r.value + 1..] == s[..|s| - 1][r.value + 1..] + [s[|s| - 1]];
      assert r.None? ==> s == s[..|s| - 1] + [s[|s| - 1]];
      r
  }

  /** `Type.of` on a fully qualified name: the package is the text before the
      last '.', the simple name the text after it. */
  function TypeOf(name: string): (t: Type)
    ensures '.' !in t.className
  {
    match LastIndexOf(name, '.')
    case None => Type("", name)
    case Some(i) => Type(name[..i], name[i + 1..])
  }

  /** Reading a written type name gives the type back when its simple name
      has no '.'. */
  lemma TypeOfRoundTrip(t: Type)
    requires '.' !in t.className
    ensures TypeOf(FullyQualifiedName(t)) == t
  {
    var s := FullyQualifiedName(t);
    var n := |t.packageName|;
    assert s[n] == '.';
    match LastIndexOf(s, '.')
    case None =>
    case Some(i) =>
      assert s[..n] == t.packageName && s[n + 1..] == t.className;
  }

  // ---------------------------------------------------------------------
  // Writing

  /** `writeArtifactLine`: "\td: " before a dependee, then the coordinates,
      " <> " and the marker. */
  function ArtifactLine(indented: bool, a: DeeplyAnalyzedArtifact): string
  {
    var header := ArtifactString(a.artifact) + ArtifactMarkerSeparator + MarkerName(a.marker);
    if indented then DependencyLinePrefix + header else header
  }

  /** `writeViolationLine`: one internal dependency of one dependent. */
  function ViolationLine(dependent: Type, dependee: Type): string
  {
    ViolationLinePrefix + FullyQualifiedName(dependent) + ViolationSeparator + FullyQualifiedName(dependee)
  }

  // ---------------------------------------------------------------------
  // Reading

  /** `parseArtifactString`: trims the line, keeps what precedes the first
      " <> " and takes its first three ':'-separated pieces; fewer pieces are
      an out-of-bounds array access. Further pieces are ignored. */
  function ParseArtifactString(line: string): (r: Result<ArtifactCoordinates>)
    ensures r.Err? ==> r.error == IndexOutOfBounds
  {
    var artifactAndMarker := JavaSplit(Trim(line), ArtifactMarkerSeparator);
    if artifactAndMarker == [] then Err(IndexOutOfBounds)
    else
    var coordinates := JavaSplit(artifactAndMarker[0], ":");
    if |coordinates| < 3 then Err(IndexOutOfBounds)
    else Ok(ArtifactCoordinates(coordinates[0], coordinates[1], coordinates[2]))
  }

  /** `parseMarkerString`: the second " <> "-separated piece of the trimmed
      line, by name; a missing piece is an out-of-bounds array access. */
  function ParseMarkerString(line: string): (r: Result<Internal>)
    ensures r.Err? ==> r.error in {IndexOutOfBounds, IllegalArgument}
  {
    var artifactAndMarker := JavaSplit(Trim(line), ArtifactMarkerSeparator);
    if |artifactAndMarker| < 2 then Err(IndexOutOfBounds)
    else MarkerOf(artifactAndMarker[1])
  }

  /** `parseViolationLine`: IllegalArgumentException without the "\tv: "
      prefix; the dependent runs from the prefix to the first " -> ", the
      internal type from there to the end. A missing separator, or one
      overlapping the prefix, makes `substring` fail. */
  function ParseViolationLine(line: string): (r: Result<(Type, Type)>)
    ensures !StartsWith(line, ViolationLinePrefix) ==> r == Err(IllegalArgument)
    ensures StartsWith(line, ViolationLinePrefix) && IndexOf(line, ViolationSeparator).None? ==>
      r == Err(IndexOutOfBounds)
    ensures r.Ok? ==> StartsWith(line, ViolationLinePrefix)
  {
    if !StartsWith(line, ViolationLinePrefix) then Err(IllegalArgument)
    else
      match IndexOf(line, ViolationSeparator)
      case None => Err(IndexOutOfBounds)
      case Some(typeEnd) =>
        if typeEnd < |ViolationLinePrefix| then Err(IndexOutOfBounds)
        else
          Ok((TypeOf(line[|ViolationLinePrefix|..typeEnd]),
              TypeOf(line[typeEnd + |ViolationSeparator|..])))
  }

  /** `parseDependencyLine`: IllegalArgumentException without the "\td: "
      prefix; otherwise the coordinates after the prefix and the marker, with
      no violations and no dependees of its own. */
  function ParseDependencyLine(line: string): (r: Result<DeeplyAnalyzedArtifact>)
    ensures !StartsWith(line, DependencyLinePrefix) ==> r == Err(IllegalArgument)
    ensures r.Ok? ==> r.value.violations == [] && r.value.dependees == []
    ensures r.Ok? ==>
      && StartsWith(line, DependencyLinePrefix)
      && ParseArtifactString(line[|DependencyLinePrefix|..]) == Ok(r.value.artifact)
  {
    if !StartsWith(line, DependencyLinePrefix) then Err(IllegalArgument)
    else
      var dependee :- ParseArtifactString(line[|DependencyLinePrefix|..]);
      var marker :- ParseMarkerString(line);
      Ok(DeeplyAnalyzedArtifact(dependee, marker, [], []))
  }

  // ---------------------------------------------------------------------
  // What reads back

  /** A character that can stand in a coordinate of a readable file: no
      whitespace (the line is trimmed and split on " <> "), no ':' (the
      coordinates are split on it) and no '<'. */
  predicate CoordinateChar(c: char)
  {
    c > ' ' && c != ':' && c != '<'
  }

  /** Coordinates that read back as written; the version is not empty since
      `split` drops a trailing empty piece. */
  predicate CoordinatesWritable(c: ArtifactCoordinates)
  {
    && (forall x :: x in c.groupId ==> CoordinateChar(x))
    && (forall x :: x in c.artifactId ==> CoordinateChar(x))
    && (forall x :: x in c.version ==> CoordinateChar(x))
    && c.version != []
  }

  /** A type that reads back as written: Java names have no whitespace and
      no '-', and the simple name has no '.'. */
  predicate TypeWritable(t: Type)
  {
    && (forall x :: x in t.packageName ==> x > ' ' && x != '-')
    && (forall x :: x in t.className ==> x > ' ' && x != '-' && x != '.')
  }

  lemma ArtifactStringChars(c: ArtifactCoordinates)
    requires CoordinatesWritable(c)
    ensures forall x :: x in ArtifactString(c) ==> x > ' ' && x != '<'
    ensures ArtifactString(c) != []
    ensures JavaSplit(ArtifactString(c), ":") == [c.groupId, c.artifactId, c.version]
  {
    ArtifactStringShape(c);
    JavaSplitJoin([c.groupId, c.artifactId, c.version], ':');
  }

  lemma MarkerNameChars(m: Internal)
    ensures MarkerName(m) != [] && ' ' !in MarkerName(m)
    ensures MarkerName(m)[0] > ' ' && MarkerName(m)[|MarkerName(m)| - 1] > ' '
    ensures MarkerOf(MarkerName(m)) == Ok(m)
  {
  }

  /** A line whose first character is not a tab has neither line prefix. */
  lemma NoLinePrefix(line: string)
    requires line != [] && line[0] != '\t'
    ensures !StartsWith(line, ViolationLinePrefix) && !StartsWith(line, DependencyLinePrefix)
  {
    if |line| >= 4 {
      assert line[..4][0] == line[0];
    }
  }

  lemma NoOccurrence(s: string, sep: string)
    requires sep != [] && sep[0] !in s
    ensures IndexOf(s, sep).None?
  {
  }

  /** Splitting on a separator that occurs once, where no earlier position
      starts it and the rest is not empty, gives the two sides. */
  lemma SplitOnce(x: string, sep: string, y: string)
    requires sep != [] && y != [] && sep[0] !in y
    requires forall j :: 0 <= j < |x| ==> !OccursAt(x + sep + y, sep, j)
    ensures IndexOf(x + sep + y, sep) == Some(|x|)
    ensures JavaSplit(x + sep + y, sep) == [x, y]
  {
    var s := x + sep + y;
    assert OccursAt(s, sep, |x|) by {
      assert s[|x|..|x| + |sep|] == sep;
    }
    assert s[..|x|] == x;
    assert s[|x| + |sep|..] == y;
    NoOccurrence(y, sep);
    assert SplitAll(s, sep) == [x] + SplitAll(y, sep);
  }

  /** Position `j` starts no separator when the character there is not the
      separator's first one. */
  lemma NotStartingThere(s: string, sep: string, j: nat)
    requires sep != [] && j < |s| && s[j] != sep[0]
    ensures !OccursAt(s, sep, j)
  {
  }

  /** A header text splits into its coordinates and its marker name. */
  lemma SplitHeader(text: string, name: string)
    requires text != [] && ' ' !in text && text[0] > ' '
    requires name != [] && ' ' !in name && name[|name| - 1] > ' '
    ensures Trim(text + ArtifactMarkerSeparator + name) == text + ArtifactMarkerSeparator + name
    ensures JavaSplit(text + ArtifactMarkerSeparator + name, ArtifactMarkerSeparator) == [text, name]
  {
    var line := text + ArtifactMarkerSeparator + name;
    assert line[0] == text[0] && line[|line| - 1] == name[|name| - 1];
    forall j | 0 <= j < |text| ensures !OccursAt(line, ArtifactMarkerSeparator, j) {
      assert line[j] == text[j];
      assert text[j] in text;
      NotStartingThere(line, ArtifactMarkerSeparator, j);
    }
    SplitOnce(text, ArtifactMarkerSeparator, name);
  }

  /** `String.trim` leaves a line alone whose ends are not whitespace. */
  lemma TrimPlain(s: string)
    requires s != [] && s[0] > ' ' && s[|s| - 1] > ' '
    ensures Trim(s) == s
  {
  }

  /** Trimming a dependee line drops its tab only. */
  lemma TrimDependencyLine(text: string, name: string)
    requires text != [] && name != [] && name[|name| - 1] > ' '
    ensures Trim(DependencyLinePrefix + text + ArtifactMarkerSeparator + name)
      == "d: " + text + ArtifactMarkerSeparator + name
  {
    var trimmed := "d: " + text + ArtifactMarkerSeparator + name;
    assert DependencyLinePrefix + text + ArtifactMarkerSeparator + name == ['\t'] + trimmed;
    assert trimmed[0] == 'd' && trimmed[|trimmed| - 1] == name[|name| - 1];
    TrimTab(trimmed);
  }

  lemma TrimTab(t: string)
    requires t != [] && t[0] > ' ' && t[|t| - 1] > ' '
    ensures Trim(['\t'] + t) == t
  {
    var x := ['\t'] + t;
    assert x[0] == '\t' && x[1..] == t;
    assert TrimStart(x) == TrimStart(t);
    assert TrimStart(t) == t;
    assert TrimEnd(t) == t;
  }

  /** In a trimmed dependee line no " <> " starts before the coordinates
      end. */
  lemma NoEarlyMarkerSeparator(text: string, name: string)
    requires text != [] && ' ' !in text && text[0] != '<'
    ensures forall j :: 0 <= j < |"d: " + text| ==>
      !OccursAt("d: " + text + ArtifactMarkerSeparator + name, ArtifactMarkerSeparator, j)
  {
    var x := "d: " + text;
    var trimmed := x + ArtifactMarkerSeparator + name;
    forall j | 0 <= j < |x| ensures !OccursAt(trimmed, ArtifactMarkerSeparator, j) {
      if j < 2 {
        NotStartingThere(trimmed, ArtifactMarkerSeparator, j);
      } else if j == 2 {
        assert trimmed[3] == text[0];
      } else {
        assert trimmed[j] == text[j - 3];
        assert text[j - 3] in text;
        NotStartingThere(trimmed, ArtifactMarkerSeparator, j);
      }
    }
  }

  /** Trimmed, a dependee line loses its tab only, and the piece before
      " <> " then starts with "d: ". */
  lemma SplitDependencyLine(text: string, name: string)
    requires text != [] && ' ' !in text && text[0] != '<'
    requires name != [] && ' ' !in name && name[|name| - 1] > ' '
    ensures JavaSplit(Trim(DependencyLinePrefix + text + ArtifactMarkerSeparator + name), ArtifactMarkerSeparator)
      == ["d: " + text, name]
  {
    TrimDependencyLine(text, name);
    NoEarlyMarkerSeparator(text, name);
    SplitOnce("d: " + text, ArtifactMarkerSeparator, name);
  }

  /** A trimmed header splits into its coordinates and its marker name. */
  lemma HeaderPieces(a: DeeplyAnalyzedArtifact)
    requires CoordinatesWritable(a.artifact)
    ensures JavaSplit(Trim(ArtifactLine(false, a)), ArtifactMarkerSeparator)
      == [ArtifactString(a.artifact), MarkerName(a.marker)]
    ensures ArtifactLine(false, a) != [] && ArtifactLine(false, a)[0] > ' '
  {
    var text := ArtifactString(a.artifact);
    var name := MarkerName(a.marker);
    ArtifactStringChars(a.artifact);
    MarkerNameChars(a.marker);
    assert text[0] in text;
    SplitHeader(text, name);
  }

  /** A header reads back as its coordinates and marker. */
  lemma HeaderRoundTrip(a: DeeplyAnalyzedArtifact)
    requires CoordinatesWritable(a.artifact)
    ensures ParseArtifactString(ArtifactLine(false, a)) == Ok(a.artifact)
    ensures ParseMarkerString(ArtifactLine(false, a)) == Ok(a.marker)
    ensures !StartsWith(ArtifactLine(false, a), ViolationLinePrefix)
    ensures !StartsWith(ArtifactLine(false, a), DependencyLinePrefix)
  {
    HeaderPieces(a);
    ArtifactStringChars(a.artifact);
    MarkerNameChars(a.marker);
    NoLinePrefix(ArtifactLine(false, a));
  }

  /** A trimmed dependee line splits into "d: " with the coordinates, and
      the marker name. */
  lemma DependencyLinePieces(a: DeeplyAnalyzedArtifact)
    requires CoordinatesWritable(a.artifact)
    ensures JavaSplit(Trim(ArtifactLine(true, a)), ArtifactMarkerSeparator)
      == ["d: " + ArtifactString(a.artifact), MarkerName(a.marker)]
    ensures ParseMarkerString(ArtifactLine(true, a)) == Ok(a.marker)
  {
    var text := ArtifactString(a.artifact);
    var name := MarkerName(a.marker);
    ArtifactStringChars(a.artifact);
    MarkerNameChars(a.marker);
    assert text[0] in text;
    SplitDependencyLine(text, name);
    Regroup(DependencyLinePrefix, text, ArtifactMarkerSeparator, name);
  }

  lemma Regroup(p: string, x: string, sep: string, y: string)
    ensures p + (x + sep + y) == p + x + sep + y
  {
  }

  /** `parseDependencyLine` on a prefixed line whose pieces are known. */
  lemma ParseDependencyOf(line: string, c: ArtifactCoordinates, m: Internal)
    requires StartsWith(line, DependencyLinePrefix)
    requires ParseArtifactString(line[|DependencyLinePrefix|..]) == Ok(c)
    requires ParseMarkerString(line) == Ok(m)
    ensures ParseDependencyLine(line) == Ok(DeeplyAnalyzedArtifact(c, m, [], []))
  {
  }

  /** Neither prefix is a prefix of the other kind of line. */
  lemma DependencyLineNotViolation(line: string)
    requires StartsWith(line, DependencyLinePrefix)
    ensures !StartsWith(line, ViolationLinePrefix)
  {
    assert line[..|ViolationLinePrefix|][1] == 'd';
  }

  /** A dependee line reads back as the dependee's coordinates and marker,
      with nothing else. */
  lemma DependencyLineRoundTrip(a: DeeplyAnalyzedArtifact)
    requires CoordinatesWritable(a.artifact)
    ensures ParseDependencyLine(ArtifactLine(true, a)) == Ok(DeeplyAnalyzedArtifact(a.artifact, a.marker, [], []))
    ensures StartsWith(ArtifactLine(true, a), DependencyLinePrefix)
    ensures !StartsWith(ArtifactLine(true, a), ViolationLinePrefix)
  {
    HeaderRoundTrip(a);
    DependencyLinePieces(a);
    Halves(DependencyLinePrefix, ArtifactLine(false, a));
    ParseDependencyOf(ArtifactLine(true, a), a.artifact, a.marker);
    DependencyLineNotViolation(ArtifactLine(true, a));
  }

  lemma Halves(p: string, s: string)
    ensures (p + s)[..|p|] == p && (p + s)[|p|..] == s
  {
  }

  /** The dependent of a violation line ends at the first " -> ". */
  lemma SplitViolationLine(d: string, i: string)
    requires d != [] && ' ' !in d && d[0] != '-'
    ensures IndexOf(ViolationLinePrefix + d + ViolationSeparator + i, ViolationSeparator)
      == Some(|ViolationLinePrefix| + |d|)
  {
    var x := ViolationLinePrefix + d;
    var line := x + ViolationSeparator + i;
    assert OccursAt(line, ViolationSeparator, |x|) by {
      assert line[|x|..|x| + |ViolationSeparator|] == ViolationSeparator;
    }
    forall j | 0 <= j < |x| ensures !OccursAt(line, ViolationSeparator, j) {
      if j < 3 {
        NotStartingThere(line, ViolationSeparator, j);
      } else if j == 3 {
        assert line[4] == d[0];
      } else {
        assert line[j] == d[j - 4];
        assert d[j - 4] in d;
        NotStartingThere(line, ViolationSeparator, j);
      }
    }
  }

  /** The two names of a violation line, as `parseViolationLine` cuts them. */
  lemma ParseViolationText(d: string, i: string)
    requires d != [] && ' ' !in d && d[0] != '-'
    ensures ParseViolationLine(ViolationLinePrefix + d + ViolationSeparator + i) == Ok((TypeOf(d), TypeOf(i)))
  {
    var line := ViolationLinePrefix + d + ViolationSeparator + i;
    SplitViolationLine(d, i);
    assert line[..|ViolationLinePrefix|] == ViolationLinePrefix;
    assert line[|ViolationLinePrefix|..|ViolationLinePrefix| + |d|] == d;
    assert line[|ViolationLinePrefix| + |d| + |ViolationSeparator|..] == i;
  }

  /** A violation line reads back as its dependent and internal type. */
  lemma ViolationLineRoundTrip(dependent: Type, dependee: Type)
    requires TypeWritable(dependent) && TypeWritable(dependee)
    ensures ParseViolationLine(ViolationLine(dependent, dependee)) == Ok((dependent, dependee))
    ensures StartsWith(ViolationLine(dependent, dependee), ViolationLinePrefix)
  {
    var d := FullyQualifiedName(dependent);
    assert d[0] in d;
    ParseViolationText(d, FullyQualifiedName(dependee));
    TypeOfRoundTrip(dependent);
    TypeOfRoundTrip(dependee);
  }
}
