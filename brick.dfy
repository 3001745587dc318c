/** A `Brick`: one page of the wall. It holds completed artifacts in
    alphabetical order of their coordinates and writes the page's front
    matter followed by one HTML table per artifact, every line going through
    `String.format`. */
module Bricks {
  import opened Wrappers
  import opened Strings
  import opened Coordinates
  import opened Markers
  import opened Violations
  import opened CompletedArtifacts
  import opened SortedSets
  import opened Formats

  // ---------------------------------------------------------------------
  // The row templates, each written as its literal pieces around its
  // conversions

  const TableOpen := "<table class=\"artifacts\">"
  const TableClose := "</table>"

  /** The start of every table row. */
  const RowStart := "\t<tr"
  /** A cell spanning both columns. */
  const Colspan := " colspan=\"2\">"
  /** The end of an attribute and its tag. */
  const TagEnd := "\">"
  /** The end of a table cell and its row. */
  const CellEnd := "</td></tr>"

  const DependantHead := RowStart + "><th class=\"dt\"" + Colspan + "<a id=\""
  const DependantTail := "<a></th></tr>"
  /** `DEPENDANT`. */
  const Dependant := DependantHead + "%s" + TagEnd + "%s" + DependantTail

  const FailedAnalysisHead := RowStart + "><td class=\"vdf\"" + Colspan
  /** `FAILED_ANALYSIS`. */
  const FailedAnalysis := FailedAnalysisHead + "%s" + CellEnd

  const FirstViolationHead := RowStart + "><td class=\"vdt1 vdt\">"
  const FirstViolationMiddle := "</td><td class=\"vde1 vde\">"
  /** `FIRST_VIOLATION`. */
  const FirstViolation := FirstViolationHead + "%s" + FirstViolationMiddle + "%s" + CellEnd

  const OtherViolationHead := RowStart + "><td class=\"vdt\">"
  const OtherViolationMiddle := "</td><td class=\"vde\">"
  /** `OTHER_VIOLATION`. */
  const OtherViolation := OtherViolationHead + "%s" + OtherViolationMiddle + "%s" + CellEnd

  const OtherViolationOfManyHead := RowStart + " class=\"vdx\">" + "<td class=\"vdt\"/>" + "<td class=\"vde\">"
  /** `OTHER_VIOLATION_OF_MANY`: only the internal type is shown. */
  const OtherViolationOfMany := OtherViolationOfManyHead + "%2$s" + CellEnd

  const FailedResolutionHead := RowStart + "><td class=\"def\"" + Colspan
  /** `FAILED_RESOLUTION`. */
  const FailedResolution := FailedResolutionHead + "%s" + CellEnd

  const FirstDependeeHead := RowStart + "><td class=\"de1 de "
  const OtherDependeeHead := RowStart + "><td class=\"de "
  const DependeeLink := "\"" + Colspan + "<a href=\"#"
  const DependeeTail := "</a></td></tr>"
  /** `FIRST_DEPENDEE`. */
  const FirstDependee := FirstDependeeHead + "%s" + DependeeLink + "%s" + TagEnd + "%s" + DependeeTail
  /** `OTHER_DEPENDEE`. */
  const OtherDependee := OtherDependeeHead + "%s" + DependeeLink + "%s" + TagEnd + "%s" + DependeeTail

  lemma TablePlain()
    ensures '%' !in TableOpen && '%' !in TableClose
    ensures TableOpen[0] == '<' && TableClose[0] == '<' && TableOpen != TableClose
  {
  }

  lemma FramePlain()
    ensures '%' !in RowStart && '%' !in Colspan && '%' !in TagEnd && '%' !in CellEnd
    ensures RowStart[0] == '\t'
  {
  }

  lemma DependantPlain()
    ensures '%' !in DependantHead && '%' !in TagEnd && '%' !in DependantTail
    ensures DependantHead[0] == '\t'
  {
    FramePlain();
  }

  lemma FailurePlain()
    ensures '%' !in FailedAnalysisHead && '%' !in FailedResolutionHead && '%' !in CellEnd
    ensures FailedAnalysisHead[0] == '\t' && FailedResolutionHead[0] == '\t'
  {
    FramePlain();
  }

  lemma FirstViolationPlain()
    ensures '%' !in FirstViolationHead && '%' !in FirstViolationMiddle && '%' !in CellEnd
    ensures FirstViolationHead[0] == '\t'
  {
    FramePlain();
  }

  lemma OtherViolationPlain()
    ensures '%' !in OtherViolationHead && '%' !in OtherViolationMiddle && '%' !in CellEnd
    ensures OtherViolationHead[0] == '\t'
  {
    FramePlain();
  }

  lemma OtherViolationOfManyPlain()
    ensures '%' !in OtherViolationOfManyHead && '%' !in CellEnd
    ensures OtherViolationOfManyHead[0] == '\t'
  {
    FramePlain();
  }

  lemma DependeePlain()
    ensures '%' !in FirstDependeeHead && '%' !in OtherDependeeHead
    ensures '%' !in DependeeLink && '%' !in TagEnd && '%' !in DependeeTail
    ensures FirstDependeeHead[0] == '\t' && OtherDependeeHead[0] == '\t'
  {
    FramePlain();
  }

  // ---------------------------------------------------------------------
  // Rows

  /** `cssClassForDependeesDependenciesOnJdk`: each marker has its own
      class, "<initial>jd". */
  function CssClass(m: Transitive): (css: string)
    ensures |css| == 3 && css[1..] == "jd"
    ensures css[0] == match m
      case UNKNOWN => 'u' case NONE => 'n' case INDIRECT => 'i' case DIRECT => 'd'
  {
    match m
    case UNKNOWN => "ujd"
    case NONE => "njd"
    case INDIRECT => "ijd"
    case DIRECT => "djd"
  }

  /** Different markers give different classes. */
  lemma CssClassInjective(m: Transitive, n: Transitive)
    ensures CssClass(m) == CssClass(n) <==> m == n
  {
    assert CssClass(m)[0] == CssClass(n)[0] ==> m == n;
  }

  /** `%s` of `getMessage()`: a missing message prints as "null". */
  function MessageText(e: Exception): string
  {
    match e.message
    case Some(m) => m
    case None => "null"
  }

  /** Which of the three violation templates a violation row uses. */
  datatype ViolationKind = FirstOfFirst | FirstOfOther | OtherOfMany

  /** One `writeLine` call of a table, by the template it uses and the values
      it hands to it. */
  datatype Row =
    | TableOpenRow
    | TableCloseRow
    | DependentRow(coordinates: string)
    | FailedAnalysisRow(message: string)
    | ViolationRow(kind: ViolationKind, className: string, internalType: string)
    | FailedResolutionRow(message: string)
    | DependeeRow(first: bool, css: string, coordinates: string)

  function Template(row: Row): string
  {
    match row
    case TableOpenRow => TableOpen
    case TableCloseRow => TableClose
    case DependentRow(_) => Dependant
    case FailedAnalysisRow(_) => FailedAnalysis
    case ViolationRow(kind, _, _) =>
      (match kind
       case FirstOfFirst => FirstViolation
       case FirstOfOther => OtherViolation
       case OtherOfMany => OtherViolationOfMany)
    case FailedResolutionRow(_) => FailedResolution
    case DependeeRow(first, _, _) => if first then FirstDependee else OtherDependee
  }

  /** The arguments: a dependent's coordinates twice; a dependee's class, its
      coordinates for the link and, for the text, its coordinates with every
      ":" spaced out. */
  function Arguments(row: Row): seq<string>
  {
    match row
    case TableOpenRow => []
    case TableCloseRow => []
    case DependentRow(c) => [c, c]
    case FailedAnalysisRow(m) => [m]
    case ViolationRow(_, cls, internal) => [cls, internal]
    case FailedResolutionRow(m) => [m]
    case DependeeRow(_, css, c) => [css, c, ReplaceChar(c, ':', " : ")]
  }

  /** The text of a row, which `TextFormats` shows is what `String.format`
      makes of its template and its arguments. Table rows start with a tab,
      which the table's own tags do not. */
  function Text(row: Row): (line: string)
    ensures |line| > 0
    ensures line[0] == '\t' <==> !row.TableOpenRow? && !row.TableCloseRow?
    ensures line == TableOpen <==> row.TableOpenRow?
    ensures line == TableClose <==> row.TableCloseRow?
  {
    TablePlain();
    match row
    case TableOpenRow => TableOpen
    case TableCloseRow => TableClose
    case DependentRow(c) =>
      DependantPlain();
      DependantHead + c + TagEnd + c + DependantTail
    case FailedAnalysisRow(m) =>
      FailurePlain();
      FailedAnalysisHead + m + CellEnd
    case ViolationRow(kind, cls, internal) => ViolationText(kind, cls, internal)
    case FailedResolutionRow(m) =>
      FailurePlain();
      FailedResolutionHead + m + CellEnd
    case DependeeRow(first, css, c) => DependeeText(first, css, c)
  }

  function ViolationText(kind: ViolationKind, cls: string, internal: string): (line: string)
    ensures |line| > 0 && line[0] == '\t'
  {
    match kind
    case FirstOfFirst =>
      FirstViolationPlain();
      FirstViolationHead + cls + FirstViolationMiddle + internal + CellEnd
    case FirstOfOther =>
      OtherViolationPlain();
      OtherViolationHead + cls + OtherViolationMiddle + internal + CellEnd
    case OtherOfMany =>
      OtherViolationOfManyPlain();
      OtherViolationOfManyHead + internal + CellEnd
  }

  function DependeeText(first: bool, css: string, c: string): (line: string)
    ensures |line| > 0 && line[0] == '\t'
  {
    DependeePlain();
    (if first then FirstDependeeHead else OtherDependeeHead)
      + css + DependeeLink + c + TagEnd + ReplaceChar(c, ':', " : ") + DependeeTail
  }

  lemma ViolationTextFormats(kind: ViolationKind, cls: string, internal: string)
    ensures Format(Template(ViolationRow(kind, cls, internal)), [cls, internal])
         == Ok(ViolationText(kind, cls, internal))
  {
    match kind
    case FirstOfFirst =>
      FirstViolationPlain();
      FormatTwo(FirstViolationHead, FirstViolationMiddle, CellEnd, cls, internal);
    case FirstOfOther =>
      OtherViolationPlain();
      FormatTwo(OtherViolationHead, OtherViolationMiddle, CellEnd, cls, internal);
    case OtherOfMany =>
      OtherViolationOfManyPlain();
      FormatSecond(OtherViolationOfManyHead, CellEnd, cls, internal);
  }

  lemma DependeeTextFormats(first: bool, css: string, c: string)
    ensures Format(Template(DependeeRow(first, css, c)), Arguments(DependeeRow(first, css, c)))
         == Ok(DependeeText(first, css, c))
  {
    var head := if first then FirstDependeeHead else OtherDependeeHead;
    DependeePlain();
    FormatThree(head, DependeeLink, TagEnd, DependeeTail, css, c, ReplaceChar(c, ':', " : "));
  }

  /** Every row's text is what `String.format` makes of the row's template
      and the arguments `writeLine` is handed: the templates are well formed
      and take as many arguments as they are given. */
  lemma TextFormats(row: Row)
    ensures Format(Template(row), Arguments(row)) == Ok(Text(row))
  {
    match row
    case TableOpenRow =>
      TablePlain();
      FormatVerbatim(TableOpen, []);
    case TableCloseRow =>
      TablePlain();
      FormatVerbatim(TableClose, []);
    case DependentRow(c) =>
      DependantPlain();
      FormatTwo(DependantHead, TagEnd, DependantTail, c, c);
    case FailedAnalysisRow(m) =>
      FailurePlain();
      FormatOne(FailedAnalysisHead, CellEnd, m);
    case ViolationRow(kind, cls, internal) =>
      ViolationTextFormats(kind, cls, internal);
    case FailedResolutionRow(m) =>
      FailurePlain();
      FormatOne(FailedResolutionHead, CellEnd, m);
    case DependeeRow(first, css, c) =>
      DependeeTextFormats(first, css, c);
  }

  lemma SpacedColon(x: string)
    requires ':' !in x
    ensures ReplaceChar(":" + x, ':', " : ") == " : " + x
  {
    assert (":" + x)[0] == ':' && (":" + x)[1..] == x;
  }

  /** Coordinates with every ":" spaced out. */
  lemma SpacedCoordinates(c: ArtifactCoordinates)
    requires ':' !in c.groupId && ':' !in c.artifactId && ':' !in c.version
    ensures ReplaceChar(ArtifactString(c), ':', " : ") == c.groupId + " : " + c.artifactId + " : " + c.version
  {
    ArtifactStringShape(c);
    var g, a, v := c.groupId, c.artifactId, c.version;
    assert ArtifactString(c) == (g + (":" + a)) + (":" + v);
    SpacedTriple(g, a, v);
  }

  lemma SpacedTriple(g: string, a: string, v: string)
    requires ':' !in g && ':' !in a && ':' !in v
    ensures ReplaceChar((g + (":" + a)) + (":" + v), ':', " : ") == g + " : " + a + " : " + v
  {
    ReplaceCharConcat(g + (":" + a), ":" + v, ':', " : ");
    ReplaceCharConcat(g, ":" + a, ':', " : ");
    SpacedColon(a);
    SpacedColon(v);
    Reassociate(g, " : ", a, v);
  }

  lemma Reassociate(g: string, sep: string, a: string, v: string)
    ensures (g + (sep + a)) + (sep + v) == g + sep + a + sep + v
  {
  }

  /** A dependee's link points at the raw coordinates, the anchor its own
      dependent row sets, while its visible text has every ":" spaced out. */
  lemma DependeeLinkText(first: bool, d: CompletedArtifact)
    requires ':' !in d.artifact.groupId && ':' !in d.artifact.artifactId && ':' !in d.artifact.version
    ensures var c := d.artifact;
      Text(DependeeRowOf(first, d))
        == (if first then FirstDependeeHead else OtherDependeeHead) + CssClass(d.transitiveMarker)
           + DependeeLink + ArtifactString(c) + TagEnd
           + c.groupId + " : " + c.artifactId + " : " + c.version + DependeeTail
  {
    var c := d.artifact;
    SpacedCoordinates(c);
    var link := (if first then FirstDependeeHead else OtherDependeeHead) + CssClass(d.transitiveMarker)
      + DependeeLink + ArtifactString(c) + TagEnd;
    var spaced := c.groupId + " : " + c.artifactId + " : " + c.version;
    assert Text(DependeeRowOf(first, d)) == link + spaced + DependeeTail;
    Enclose(link, c.groupId, " : ", c.artifactId, c.version, DependeeTail);
  }

  lemma Enclose(link: string, g: string, sep: string, a: string, v: string, tail: string)
    ensures link + (g + sep + a + sep + v) + tail == link + g + sep + a + sep + v + tail
  {
  }

  // ---------------------------------------------------------------------
  // The rows of one artifact's table

  /** `writeViolation`: the first internal type with the given template, every
      further one with `OTHER_VIOLATION_OF_MANY`, all beside the dependent's
      class name. */
  function ViolationRowsOf(kind: ViolationKind, v: Violation): (rows: seq<Row>)
    ensures |rows| == |v.internalDependencies|
    ensures forall j :: 0 <= j < |rows| ==>
      rows[j] == ViolationRow(if j == 0 then kind else OtherOfMany,
                              v.dependent.className, FullyQualifiedName(v.internalDependencies[j]))
  {
    var deps := v.internalDependencies;
    if deps == [] then []
    else
      var first := ViolationRow(kind, v.dependent.className, FullyQualifiedName(deps[0]));
      [first] + OfManyRows(v.dependent.className, deps[1..])
  }

  function OfManyRows(cls: string, deps: seq<Type>): (rows: seq<Row>)
    ensures |rows| == |deps|
    ensures forall j :: 0 <= j < |rows| ==> rows[j] == ViolationRow(OtherOfMany, cls, FullyQualifiedName(deps[j]))
  {
    if deps == [] then []
    else [ViolationRow(OtherOfMany, cls, FullyQualifiedName(deps[0]))] + OfManyRows(cls, deps[1..])
  }

  /** The number of internal types over all violations: one row each. */
  function Total(vs: seq<Violation>): nat
  {
    if vs == [] then 0 else |vs[0].internalDependencies| + Total(vs[1..])
  }

  /** `writeAnalysedViolations`: the first violation opens with
      `FIRST_VIOLATION`, every later one with `OTHER_VIOLATION`. */
  function AnalysedViolationRows(vs: seq<Violation>): (rows: seq<Row>)
    ensures |rows| == Total(vs)
    ensures forall r :: r in rows ==> r.ViolationRow?
  {
    if vs == [] then []
    else ViolationRowsOf(FirstOfFirst, vs[0]) + LaterViolationRows(vs[1..])
  }

  function LaterViolationRows(vs: seq<Violation>): (rows: seq<Row>)
    ensures |rows| == Total(vs)
    ensures forall r :: r in rows ==> r.ViolationRow? && r.kind != FirstOfFirst
  {
    if vs == [] then []
    else ViolationRowsOf(FirstOfOther, vs[0]) + LaterViolationRows(vs[1..])
  }

  lemma TotalPrefix(vs: seq<Violation>, i: nat)
    requires 0 < i <= |vs|
    ensures Total(vs[..i]) == |vs[0].internalDependencies| + Total(vs[1..][..i - 1])
  {
    assert vs[..i][0] == vs[0];
    assert vs[..i][1..] == vs[1..][..i - 1];
  }

  lemma TotalBound(vs: seq<Violation>, i: nat)
    requires i < |vs|
    ensures Total(vs[..i]) + |vs[i].internalDependencies| <= Total(vs)
    decreases i
  {
    if i == 0 {
      assert vs[..0] == [];
    } else {
      TotalPrefix(vs, i);
      TotalBound(vs[1..], i - 1);
    }
  }

  lemma SliceAfter<T>(a: seq<T>, b: seq<T>, i: nat, j: nat)
    requires i <= j <= |b|
    ensures (a + b)[|a| + i..|a| + j] == b[i..j]
  {
  }

  /** Where the rows of the i-th violation sit among the rows of a sequence
      of violations made of the rows of its first violation followed by those
      of the rest. */
  lemma RowsAt(vs: seq<Violation>, i: nat, first: seq<Row>, rest: seq<Row>, kind: ViolationKind)
    requires 0 < i < |vs| && |first| == |vs[0].internalDependencies|
    requires Total(vs[1..][..i - 1]) + |vs[i].internalDependencies| <= |rest|
    requires rest[Total(vs[1..][..i - 1])..Total(vs[1..][..i - 1]) + |vs[i].internalDependencies|]
          == ViolationRowsOf(kind, vs[i])
    ensures Total(vs[..i]) + |vs[i].internalDependencies| <= |first + rest|
    ensures (first + rest)[Total(vs[..i])..Total(vs[..i]) + |vs[i].internalDependencies|]
         == ViolationRowsOf(kind, vs[i])
  {
    TotalPrefix(vs, i);
    var off := Total(vs[1..][..i - 1]);
    SliceAfter(first, rest, off, off + |vs[i].internalDependencies|);
  }

  /** The rows of the i-th of the later violations sit right after those of
      the violations before it. */
  lemma {:induction false} LaterViolationRowsAt(vs: seq<Violation>, i: nat)
    requires i < |vs|
    ensures Total(vs[..i]) + |vs[i].internalDependencies| <= |LaterViolationRows(vs)|
    ensures LaterViolationRows(vs)[Total(vs[..i])..Total(vs[..i]) + |vs[i].internalDependencies|]
         == ViolationRowsOf(FirstOfOther, vs[i])
    decreases i
  {
    if i == 0 {
      FirstLaterViolationRows(vs);
    } else {
      var first := ViolationRowsOf(FirstOfOther, vs[0]);
      var rest := LaterViolationRows(vs[1..]);
      assert LaterViolationRows(vs) == first + rest;
      LaterViolationRowsAt(vs[1..], i - 1);
      RowsAt(vs, i, first, rest, FirstOfOther);
    }
  }

  lemma FirstLaterViolationRows(vs: seq<Violation>)
    requires vs != []
    ensures |vs[0].internalDependencies| <= |LaterViolationRows(vs)|
    ensures Total(vs[..0]) == 0
    ensures LaterViolationRows(vs)[0..|vs[0].internalDependencies|] == ViolationRowsOf(FirstOfOther, vs[0])
  {
    var first := ViolationRowsOf(FirstOfOther, vs[0]);
    var rest := LaterViolationRows(vs[1..]);
    assert LaterViolationRows(vs) == first + rest;
    assert vs[..0] == [];
    FrontSlice(first, rest);
  }

  /** Within the rows of all violations, the i-th violation's rows come in
      order, opening with `FIRST_VIOLATION` for the first violation and with
      `OTHER_VIOLATION` for every later one. */
  lemma ViolationRowsAt(vs: seq<Violation>, i: nat)
    requires i < |vs|
    ensures Total(vs[..i]) + |vs[i].internalDependencies| <= |AnalysedViolationRows(vs)|
    ensures AnalysedViolationRows(vs)[Total(vs[..i])..Total(vs[..i]) + |vs[i].internalDependencies|]
         == ViolationRowsOf(if i == 0 then FirstOfFirst else FirstOfOther, vs[i])
  {
    if i == 0 {
      FirstViolationRows(vs);
    } else {
      LaterViolationRowsAmongAll(vs, i);
    }
  }

  lemma FirstViolationRows(vs: seq<Violation>)
    requires vs != []
    ensures |vs[0].internalDependencies| <= |AnalysedViolationRows(vs)|
    ensures Total(vs[..0]) == 0
    ensures AnalysedViolationRows(vs)[0..|vs[0].internalDependencies|] == ViolationRowsOf(FirstOfFirst, vs[0])
  {
    var first := ViolationRowsOf(FirstOfFirst, vs[0]);
    var rest := LaterViolationRows(vs[1..]);
    assert AnalysedViolationRows(vs) == first + rest;
    assert vs[..0] == [];
    FrontSlice(first, rest);
  }

  lemma LaterViolationRowsAmongAll(vs: seq<Violation>, i: nat)
    requires 0 < i < |vs|
    ensures Total(vs[..i]) + |vs[i].internalDependencies| <= |AnalysedViolationRows(vs)|
    ensures AnalysedViolationRows(vs)[Total(vs[..i])..Total(vs[..i]) + |vs[i].internalDependencies|]
         == ViolationRowsOf(FirstOfOther, vs[i])
  {
    var first := ViolationRowsOf(FirstOfFirst, vs[0]);
    var rest := LaterViolationRows(vs[1..]);
    assert AnalysedViolationRows(vs) == first + rest;
    LaterViolationRowsAt(vs[1..], i - 1);
    RowsAt(vs, i, first, rest, FirstOfOther);
  }

  lemma FrontSlice<X>(a: seq<X>, b: seq<X>)
    ensures |a| <= |a + b| && (a + b)[0..|a|] == a
  {
  }

  /** `writeViolations`: a failed analysis is a single row with its
      message. */
  function ViolationRows(violations: ViolationsEither): (rows: seq<Row>)
    ensures forall r :: r in rows ==> r.ViolationRow? || r.FailedAnalysisRow?
  {
    match violations
    case AnalysisFailed(e) => [FailedAnalysisRow(MessageText(e))]
    case Analyzed(vs) => AnalysedViolationRows(vs)
  }

  function DependeeRowOf(first: bool, d: CompletedArtifact): Row
  {
    DependeeRow(first, CssClass(d.transitiveMarker), ArtifactString(d.artifact))
  }

  /** `writeAnalysedDependees`: the first dependee with `FIRST_DEPENDEE`,
      every other one with `OTHER_DEPENDEE`, in the set's order. */
  function AnalysedDependeeRows(ds: seq<CompletedArtifact>): (rows: seq<Row>)
    ensures |rows| == |ds|
    ensures forall i :: 0 <= i < |ds| ==> rows[i] == DependeeRowOf(i == 0, ds[i])
  {
    if ds == [] then [] else [DependeeRowOf(true, ds[0])] + OtherDependeeRows(ds[1..])
  }

  function OtherDependeeRows(ds: seq<CompletedArtifact>): (rows: seq<Row>)
    ensures |rows| == |ds|
    ensures forall i :: 0 <= i < |ds| ==> rows[i] == DependeeRowOf(false, ds[i])
  {
    if ds == [] then [] else [DependeeRowOf(false, ds[0])] + OtherDependeeRows(ds[1..])
  }

  /** `writeDependees`: a failed resolution is a single row with its
      message. */
  function DependeeRows(dependees: DependeesEither): (rows: seq<Row>)
    ensures forall r :: r in rows ==> r.DependeeRow? || r.FailedResolutionRow?
  {
    match dependees
    case ResolutionFailed(e) => [FailedResolutionRow(MessageText(e))]
    case Resolved(ds) => AnalysedDependeeRows(ds)
  }

  /** `writeArtifact`. */
  function ArtifactRows(a: CompletedArtifact): seq<Row>
  {
    [TableOpenRow, DependentRow(ArtifactString(a.artifact))]
      + ViolationRows(a.violations) + DependeeRows(a.dependees) + [TableCloseRow]
  }

  /** Each table opens with its tag, names the dependent next, with its
      coordinates as both anchor and text, and closes with its tag; no other
      row opens or closes a table. */
  lemma ArtifactTableShape(a: CompletedArtifact)
    ensures var rows := ArtifactRows(a);
      && |rows| >= 3
      && rows[0] == TableOpenRow
      && rows[1] == DependentRow(ArtifactString(a.artifact))
      && rows[|rows| - 1] == TableCloseRow
      && forall r :: r in rows[1..|rows| - 1] ==> !r.TableOpenRow? && !r.TableCloseRow?
  {
    var h, vr, dr := DependentRow(ArtifactString(a.artifact)), ViolationRows(a.violations), DependeeRows(a.dependees);
    TableOutline(h, vr, dr);
    InTable(h, vr, dr);
  }

  /** The first, second and last rows of a table, and what lies between. */
  lemma TableOutline(h: Row, vr: seq<Row>, dr: seq<Row>)
    ensures var rows := [TableOpenRow, h] + vr + dr + [TableCloseRow];
      && |rows| >= 3 && rows[0] == TableOpenRow && rows[1] == h && rows[|rows| - 1] == TableCloseRow
      && rows[1..|rows| - 1] == [h] + vr + dr
  {
    var rows := [TableOpenRow, h] + vr + dr + [TableCloseRow];
    assert rows[1..|rows| - 1] == [h] + vr + dr;
  }

  /** A failed analysis gives exactly one row, in place of the violation
      rows: the table has a failed-analysis row exactly when the analysis
      failed, and then no violation row at all. */
  lemma FailedAnalysisTable(a: CompletedArtifact)
    ensures var rows := ArtifactRows(a);
      && ((exists r :: r in rows && r.FailedAnalysisRow?) <==> a.violations.AnalysisFailed?)
      && (a.violations.AnalysisFailed? ==>
            && rows[2] == FailedAnalysisRow(MessageText(a.violations.left))
            && |rows| == 4 + |DependeeRows(a.dependees)|
            && forall r :: r in rows ==> !r.ViolationRow?)
  {
    var h, vr, dr := DependentRow(ArtifactString(a.artifact)), ViolationRows(a.violations), DependeeRows(a.dependees);
    InTable(h, vr, dr);
    match a.violations
    case AnalysisFailed(e) =>
      TableParts(h, vr, dr);
      assert ArtifactRows(a)[2] in ArtifactRows(a);
    case Analyzed(vs) =>
      forall r | r in vr ensures r.ViolationRow? {
        var i :| 0 <= i < |vr| && vr[i] == r;
      }
  }

  /** A failed resolution gives exactly one row, in place of the dependee
      rows. */
  lemma FailedResolutionTable(a: CompletedArtifact)
    ensures var rows := ArtifactRows(a);
      && ((exists r :: r in rows && r.FailedResolutionRow?) <==> a.dependees.ResolutionFailed?)
      && (a.dependees.ResolutionFailed? ==>
            && rows[|rows| - 2] == FailedResolutionRow(MessageText(a.dependees.left))
            && |rows| == 4 + |ViolationRows(a.violations)|
            && forall r :: r in rows ==> !r.DependeeRow?)
  {
    var h, vr, dr := DependentRow(ArtifactString(a.artifact)), ViolationRows(a.violations), DependeeRows(a.dependees);
    InTable(h, vr, dr);
    match a.dependees
    case ResolutionFailed(e) =>
      TableParts(h, vr, dr);
      assert ArtifactRows(a)[|ArtifactRows(a)| - 2] in ArtifactRows(a);
    case Resolved(ds) =>
      forall r | r in dr ensures r.DependeeRow? {
        var i :| 0 <= i < |dr| && dr[i] == r;
      }
  }

  /** A row is in a table exactly when it is one of the table's parts. */
  lemma InTable(h: Row, vr: seq<Row>, dr: seq<Row>)
    ensures forall r :: r in [TableOpenRow, h] + vr + dr + [TableCloseRow] <==>
      r == TableOpenRow || r == h || r in vr || r in dr || r == TableCloseRow
  {
  }

  /** Where the parts of a table sit. */
  lemma TableParts(h: Row, vr: seq<Row>, dr: seq<Row>)
    ensures var rows := [TableOpenRow, h] + vr + dr + [TableCloseRow];
      && |rows| == 3 + |vr| + |dr|
      && (|vr| == 1 ==> rows[2] == vr[0])
      && (|dr| == 1 ==> rows[|rows| - 2] == dr[0])
  {
  }

  // ---------------------------------------------------------------------
  // Lines of a page

  function Lines(rows: seq<Row>): (lines: seq<string>)
    ensures |lines| == |rows|
    ensures forall i :: 0 <= i < |rows| ==> lines[i] == Text(rows[i])
  {
    seq(|rows|, i requires 0 <= i < |rows| => Text(rows[i]))
  }

  function ArtifactLines(a: CompletedArtifact): seq<string>
  {
    Lines(ArtifactRows(a))
  }

  /** The tables of the artifacts, in the set's order. */
  function Tables(artifacts: seq<CompletedArtifact>): seq<string>
  {
    if artifacts == [] then []
    else Tables(artifacts[..|artifacts| - 1]) + ArtifactLines(artifacts[|artifacts| - 1])
  }

  /** Writing one more artifact's table extends the page by that table. */
  lemma PageStep(frontMatter: seq<string>, all: seq<CompletedArtifact>, i: nat)
    requires i < |all|
    ensures frontMatter + Tables(all[..i]) + ArtifactLines(all[i]) == frontMatter + Tables(all[..i + 1])
  {
    assert all[..i + 1][..i] == all[..i];
  }

  /** Rows other than the table's tags give lines other than the tags. */
  lemma NoTags(rows: seq<Row>)
    requires forall r :: r in rows ==> !r.TableOpenRow? && !r.TableCloseRow?
    ensures TableOpen !in Lines(rows) && TableClose !in Lines(rows)
  {
    var lines := Lines(rows);
    forall i | 0 <= i < |lines| ensures lines[i] != TableOpen && lines[i] != TableClose {
      assert rows[i] in rows;
    }
  }

  lemma LinesSlice(rows: seq<Row>, i: nat, j: nat)
    requires i <= j <= |rows|
    ensures Lines(rows)[i..j] == Lines(rows[i..j])
  {
  }

  /** How often an element occurs in a sequence of at least two elements
      whose inner part does not hold it. */
  lemma CountEnds<T>(s: seq<T>, x: T)
    requires |s| >= 2 && x !in s[1..|s| - 1]
    ensures multiset(s)[x] == (if s[0] == x then 1 else 0) + (if s[|s| - 1] == x then 1 else 0)
  {
    assert s == [s[0]] + s[1..|s| - 1] + [s[|s| - 1]];
  }

  /** Each artifact's table holds its opening tag and its closing tag exactly
      once. */
  lemma ArtifactLinesTags(a: CompletedArtifact)
    ensures multiset(ArtifactLines(a))[TableOpen] == 1
    ensures multiset(ArtifactLines(a))[TableClose] == 1
  {
    ArtifactTableShape(a);
    TagsOnce(ArtifactRows(a));
  }

  /** Rows that open a table, close it and hold no other tag in between
      give each tag's line once. */
  lemma TagsOnce(rows: seq<Row>)
    requires |rows| >= 2 && rows[0] == TableOpenRow && rows[|rows| - 1] == TableCloseRow
    requires forall r :: r in rows[1..|rows| - 1] ==> !r.TableOpenRow? && !r.TableCloseRow?
    ensures multiset(Lines(rows))[TableOpen] == 1
    ensures multiset(Lines(rows))[TableClose] == 1
  {
    var lines := Lines(rows);
    var n := |lines|;
    LinesSlice(rows, 1, n - 1);
    NoTags(rows[1..n - 1]);
    TablePlain();
    assert lines[0] == TableOpen && lines[n - 1] == TableClose;
    CountEnds(lines, TableOpen);
    CountEnds(lines, TableClose);
  }

  /** One table per artifact: the tags open and close as many tables as
      there are artifacts. */
  lemma {:induction false} TablesCount(artifacts: seq<CompletedArtifact>)
    ensures multiset(Tables(artifacts))[TableOpen] == |artifacts|
    ensures multiset(Tables(artifacts))[TableClose] == |artifacts|
  {
    if artifacts != [] {
      var init := artifacts[..|artifacts| - 1];
      TablesCount(init);
      ArtifactLinesTags(artifacts[|artifacts| - 1]);
    }
  }

  // ---------------------------------------------------------------------
  // The front matter

  /** The front matter as the page writes it: every line is handed to
      `String.format` as a template without arguments. */
  function FrontMatterAsWritten(frontMatter: seq<string>): Result<seq<string>>
  {
    CollectResults(seq(|frontMatter|, i requires 0 <= i < |frontMatter| => Format(frontMatter[i], [])))
  }

  /** The page as written: the formatted front matter, then the tables. */
  function PageAsWritten(frontMatter: seq<string>, artifacts: seq<CompletedArtifact>): Result<seq<string>>
  {
    var head :- FrontMatterAsWritten(frontMatter);
    Ok(head + Tables(artifacts))
  }

  /** The page: the front matter copied line by line, then the tables. */
  function Page(frontMatter: seq<string>, artifacts: seq<CompletedArtifact>): seq<string>
  {
    frontMatter + Tables(artifacts)
  }

  /** The page opens and closes one table per artifact of the set, as long
      as the front matter holds no table tag of its own. */
  lemma PageTables(frontMatter: seq<string>, artifacts: seq<CompletedArtifact>)
    requires TableOpen !in frontMatter && TableClose !in frontMatter
    ensures multiset(Page(frontMatter, artifacts))[TableOpen] == |artifacts|
    ensures multiset(Page(frontMatter, artifacts))[TableClose] == |artifacts|
  {
    TablesCount(artifacts);
  }

  /** Formatting the front matter only agrees with copying it while no line
      holds a `%`. */
  lemma PageAsWrittenWithoutPercent(frontMatter: seq<string>, artifacts: seq<CompletedArtifact>)
    requires forall i :: 0 <= i < |frontMatter| ==> '%' !in frontMatter[i]
    ensures PageAsWritten(frontMatter, artifacts) == Ok(Page(frontMatter, artifacts))
  {
    forall i | 0 <= i < |frontMatter| ensures Format(frontMatter[i], []) == Ok(frontMatter[i]) {
      FormatVerbatim(frontMatter[i], []);
    }
    assert FrontMatterAsWritten(frontMatter).value == frontMatter;
  }

  lemma FormatDoubledPercent()
    ensures Format("100%%", []) == Ok("100%")
  {
    var x, pp := "100", "%%";
    assert '%' !in x;
    PlainPrefix(x, pp, [], 0);
    assert pp + "" == pp;
    PercentEscape("", [], 0);
    assert FormatFrom("", [], 0) == Ok("");
    assert FormatFrom(pp, [], 0) == Ok("%" + "");
    assert x + pp == "100%%";
    assert x + ("%" + "") == "100%";
  }

  lemma FormatTrailingPercent()
    ensures Format("width: 100%", []) == Err(UnknownFormatConversion)
  {
    TrailingPercent("width: 100", []);
    assert "width: 100" + "%" == "width: 100%";
  }

  /** A front-matter line ending in `%` makes the page fail to be written. */
  lemma PageAsWrittenFails(artifacts: seq<CompletedArtifact>)
    ensures PageAsWritten(["width: 100%"], artifacts) == Err(UnknownFormatConversion)
  {
    FormatTrailingPercent();
  }

  /** A doubled `%%` in the front matter is written as a single `%`, so the
      page does not start with its front matter. */
  lemma PageAsWrittenUnescapes(artifacts: seq<CompletedArtifact>)
    ensures PageAsWritten(["100%%"], artifacts) == Ok(["100%"] + Tables(artifacts))
    ensures Page(["100%%"], artifacts)[0] != PageAsWritten(["100%%"], artifacts).value[0]
  {
    FormatDoubledPercent();
    var fm := ["100%%"];
    var formatted := seq(|fm|, i requires 0 <= i < |fm| => Format(fm[i], []));
    assert formatted == [Ok("100%")];
    var r := CollectResults(formatted);
    assert r.Ok? && |r.value| == 1 && r.value[0] == "100%";
    assert r.value == ["100%"];
  }

  // ---------------------------------------------------------------------
  // The brick

  /** `IdentifiesArtifact.alphabeticalOrder`. */
  function Key(a: CompletedArtifact): seq<string>
  {
    ArtifactKey(a.artifact)
  }

  class Brick {
    /** The tree set, in ascending order. */
    var artifacts: seq<CompletedArtifact>
    const frontMatter: seq<string>
    /** The post file's lines. */
    var file: seq<string>

    ghost predicate Valid()
      reads this`artifacts
    {
      Sorted(artifacts, Key)
    }

    /** The post file holds the page of the set. */
    ghost predicate Published()
      reads this`file, this`artifacts
    {
      file == Page(frontMatter, artifacts)
    }

    /** `of`: the front matter read from its file, the post file as it is,
        and no artifacts yet. */
    constructor Of(frontMatter: seq<string>, file: seq<string>)
      ensures Valid()
      ensures artifacts == [] && this.frontMatter == frontMatter && this.file == file
    {
      artifacts := [];
      this.frontMatter := frontMatter;
      this.file := file;
    }

    /** `addArtifact`: the set keeps its order and gains the artifact's
        coordinates; an artifact whose coordinates are already there is not
        added again. */
    method AddArtifact(a: CompletedArtifact)
      requires Valid()
      modifies this
      ensures Valid() && artifacts == Add(old(artifacts), a, Key) && file == old(file)
      ensures Keys(artifacts, Key) == Keys(old(artifacts), Key) + {Key(a)}
      ensures Key(a) in Keys(old(artifacts), Key) ==> artifacts == old(artifacts)
    {
      AddSpec(artifacts, a, Key);
      artifacts := Add(artifacts, a, Key);
    }

    /** `write`: the post file replaced by the front matter and the tables of
        the artifacts in the set's order. */
    method Write()
      modifies this
      ensures Published() && artifacts == old(artifacts)
    {
      var lines: seq<string> := [];
      for i := 0 to |frontMatter|
        invariant lines == frontMatter[..i]
        modifies {}
      {
        assert frontMatter[..i + 1] == frontMatter[..i] + [frontMatter[i]];
        lines := lines + [frontMatter[i]];
      }
      assert frontMatter[..|frontMatter|] == frontMatter;
      var all := artifacts;
      for i := 0 to |all|
        invariant lines == frontMatter + Tables(all[..i])
        modifies {}
      {
        PageStep(frontMatter, all, i);
        lines := lines + ArtifactLines(all[i]);
      }
      assert all[..|all|] == all;
      file := lines;
    }
  }
}
