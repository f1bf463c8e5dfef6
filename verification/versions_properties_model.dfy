/**
 * The in-memory model of a `versions.properties` file: free text before the generated header,
 * the version of the tool that generated it, an optional removals revision, and an ordered
 * list of sections. The constructors of the source enforce a comment-prefix grammar:
 * `#` starts a comment, `##` is reserved for metadata placed before a version, and `####`
 * marks the generated header.
 */
module VersionsPropertiesModel {
  import opened Wrappers
  import opened Text

  const HeaderLinesPrefix := "####"
  // Long literals are written as concatenations of short pieces; the texts are unchanged.
  const GeneratedByLineStart := "#### Generated by " + "`./gradlew " + "refreshVersions` " + "version "
  const RemovalsRevisionLineStart := "#### Revision of " + "dependency " + "notations removals: "
  const AvailableComment := "# available"
  const UnusedEntryComment := "## unused"
  const FailureCommentStart := "## failed to check repo "
  const VersionKeysPrefixes := ["plugin", "version"]
  const IsUsingVersionRejectionHeader :=
    "####\n#### NOTE: Some versions are " + "filtered by the rejectVersionIf " + "predicate. See the " + "settings.gradle.kts file."

  const HeaderTitle := "#### Dependencies " + "and Plugin versions " + "with their " + "available updates."

  /** The closing lines of the generated header, as `trimMargin` leaves them. */
  const HeaderEndLines := [
    "####",
    "#### Don't manually " + "edit or split the " + "comments that start " + "with four hashtags " + "(####),",
    "#### they will be " + "overwritten by " + "refreshVersions.",
    "####",
    "#### suppress " + "inspection " + "\"SpellChecking" + "Inspection\" " + "for whole file",
    "#### suppress " + "inspection " + "\"UnusedProperty\" " + "for whole file"
  ]

  /** The `require` failures of the constructors (`IllegalArgumentException` in the source). */
  datatype FormatError =
    | PreHeaderNotTerminated
    | NotACommentLine(line: string)
    | DoubleHashTrailingLine(line: string)

  /** What `mustBeACommentLine` requires of a line. */
  predicate IsCommentLine(line: string) {
    StartsWith(line, "#")
  }

  /** Every non-blank line is a comment; blank lines are allowed. */
  predicate CommentOrBlankLines(lines: seq<string>) {
    forall k :: 0 <= k < |lines| ==> IsBlank(lines[k]) || IsCommentLine(lines[k])
  }

  /** A trailing line is a comment and does not use the `##` prefix reserved for metadata. */
  predicate IsTrailingLine(line: string) {
    IsCommentLine(line) && !StartsWith(line, "##")
  }

  predicate TrailingLines(lines: seq<string>) {
    forall k :: 0 <= k < |lines| ==> IsTrailingLine(lines[k])
  }

  datatype Section =
    | Comment(lines: string)
    | VersionEntry(
        leadingCommentLines: seq<string>,
        key: string,
        currentVersion: string,
        availableUpdates: seq<string>,
        trailingCommentLines: seq<string>)
  {
    /** What the `init` blocks of `Section.Comment` and `Section.VersionEntry` check. */
    predicate Valid() {
      match this
      case Comment(lines) => CommentOrBlankLines(Lines(lines))
      case VersionEntry(leading, _, _, _, trailing) => CommentOrBlankLines(leading) && TrailingLines(trailing)
    }
  }

  datatype VersionsProperties = VersionsProperties(
    preHeaderContent: string,
    generatedByVersion: string,
    dependencyNotationRemovalsRevision: Option<Int32>,
    sections: seq<Section>)
  {
    /** What the `init` block of `VersionsPropertiesModel` checks, plus the validity of every section. */
    predicate Valid() {
      && (preHeaderContent == "" || EndsWith(preHeaderContent, "\n"))
      && CommentOrBlankLines(Lines(preHeaderContent))
      && forall k :: 0 <= k < |sections| ==> sections[k].Valid()
    }
  }

  // ---------------------------------------------------------------------------
  // The checks run by the constructors, line by line and in order

  /** Position of the first non-blank line that is not a comment, where `forEach` throws. */
  function FirstNonComment(lines: seq<string>): (r: Option<nat>)
    ensures r.None? <==> CommentOrBlankLines(lines)
    ensures r.Some? ==> r.value < |lines| && !IsBlank(lines[r.value]) && !IsCommentLine(lines[r.value])
    ensures r.Some? ==> CommentOrBlankLines(lines[..r.value])
  {
    if |lines| == 0 then None
    else if !IsBlank(lines[0]) && !IsCommentLine(lines[0]) then Some(0)
    else
      match FirstNonComment(lines[1..])
      case None => None
      case Some(k) =>
        assert lines[..k + 1] == [lines[0]] + lines[1..][..k];
        Some(k + 1)
  }

  /** Position of the first trailing line that is not a comment or starts with `##`. */
  function FirstBadTrailing(lines: seq<string>): (r: Option<nat>)
    ensures r.None? <==> TrailingLines(lines)
    ensures r.Some? ==> r.value < |lines| && !IsTrailingLine(lines[r.value])
    ensures r.Some? ==> TrailingLines(lines[..r.value])
  {
    if |lines| == 0 then None
    else if !IsTrailingLine(lines[0]) then Some(0)
    else
      match FirstBadTrailing(lines[1..])
      case None => None
      case Some(k) =>
        assert lines[..k + 1] == [lines[0]] + lines[1..][..k];
        Some(k + 1)
  }

  /** The error raised for an offending trailing line: the comment check runs before the `##` check. */
  function TrailingError(line: string): FormatError {
    if !IsCommentLine(line) then NotACommentLine(line) else DoubleHashTrailingLine(line)
  }

  // ---------------------------------------------------------------------------
  // Constructors

  /** `Section.Comment(lines)`. */
  function NewComment(lines: string): (r: Result<Section, FormatError>)
    ensures r.Success? <==> Comment(lines).Valid()
    ensures r.Success? ==> r.value == Comment(lines)
    ensures r.Failure? ==>
      exists k :: 0 <= k < |Lines(lines)| && r.error == NotACommentLine(Lines(lines)[k])
        && !IsBlank(Lines(lines)[k]) && !IsCommentLine(Lines(lines)[k])
        && CommentOrBlankLines(Lines(lines)[..k])
  {
    match FirstNonComment(Lines(lines))
    case Some(k) => Failure(NotACommentLine(Lines(lines)[k]))
    case None => Success(Comment(lines))
  }

  /** `Section.VersionEntry(...)`: leading lines are checked first, then trailing lines. */
  function NewVersionEntry(
    leading: seq<string>, key: string, currentVersion: string,
    availableUpdates: seq<string>, trailing: seq<string>
  ): (r: Result<Section, FormatError>)
    ensures r.Success? <==> CommentOrBlankLines(leading) && TrailingLines(trailing)
    ensures r.Success? ==> r.value == VersionEntry(leading, key, currentVersion, availableUpdates, trailing)
    ensures r.Success? ==> r.value.Valid()
    ensures r.Failure? && !CommentOrBlankLines(leading) ==>
      exists k :: 0 <= k < |leading| && r.error == NotACommentLine(leading[k])
        && !IsBlank(leading[k]) && !IsCommentLine(leading[k]) && CommentOrBlankLines(leading[..k])
    ensures r.Failure? && CommentOrBlankLines(leading) ==>
      exists k :: 0 <= k < |trailing| && !IsTrailingLine(trailing[k]) && TrailingLines(trailing[..k])
        && r.error == (if IsCommentLine(trailing[k]) then DoubleHashTrailingLine(trailing[k]) else NotACommentLine(trailing[k]))
  {
    match FirstNonComment(leading)
    case Some(k) => Failure(NotACommentLine(leading[k]))
    case None =>
      match FirstBadTrailing(trailing)
      case Some(k) => Failure(TrailingError(trailing[k]))
      case None => Success(VersionEntry(leading, key, currentVersion, availableUpdates, trailing))
  }

  /** `VersionsPropertiesModel(...)`; its sections were checked when they were built. */
  function NewVersionsProperties(
    preHeaderContent: string, generatedByVersion: string,
    removalsRevision: Option<Int32>, sections: seq<Section>
  ): (r: Result<VersionsProperties, FormatError>)
    requires forall k :: 0 <= k < |sections| ==> sections[k].Valid()
    ensures r.Success? <==> VersionsProperties(preHeaderContent, generatedByVersion, removalsRevision, sections).Valid()
    ensures r.Success? ==> r.value == VersionsProperties(preHeaderContent, generatedByVersion, removalsRevision, sections)
    ensures r == Failure(PreHeaderNotTerminated) <==> preHeaderContent != "" && !EndsWith(preHeaderContent, "\n")
    ensures r.Failure? && r.error != PreHeaderNotTerminated ==>
      r.error.NotACommentLine? &&
      exists k :: 0 <= k < |Lines(preHeaderContent)| && r.error.line == Lines(preHeaderContent)[k]
        && !IsBlank(r.error.line) && !IsCommentLine(r.error.line)
        && CommentOrBlankLines(Lines(preHeaderContent)[..k])
  {
    if preHeaderContent != "" && !EndsWith(preHeaderContent, "\n") then Failure(PreHeaderNotTerminated)
    else
      match FirstNonComment(Lines(preHeaderContent))
      case Some(k) => Failure(NotACommentLine(Lines(preHeaderContent)[k]))
      case None => Success(VersionsProperties(preHeaderContent, generatedByVersion, removalsRevision, sections))
  }

  // ---------------------------------------------------------------------------
  // Metadata lines

  /** The metadata carried by one leading line: the text after its first `"## "`, unless empty. */
  function LineMetadata(line: string): (r: seq<string>)
    ensures |r| <= 1
    ensures r != [] ==> IndexOf(line, "## ").Some? && r[0] != ""
  {
    var text := SubstringAfter(line, "## ", "");
    if text == "" then [] else [text]
  }

  /** `VersionEntry.metadataLines` (`mapNotNull` over the leading lines). */
  function MetadataLines(leading: seq<string>): (r: seq<string>)
    ensures |r| <= |leading|
    ensures forall k :: 0 <= k < |r| ==> r[k] != ""
  {
    if |leading| == 0 then [] else LineMetadata(leading[0]) + MetadataLines(leading[1..])
  }

  /** Metadata is collected line by line, in order. */
  lemma {:induction false} MetadataLinesAppend(a: seq<string>, b: seq<string>)
    ensures MetadataLines(a + b) == MetadataLines(a) + MetadataLines(b)
  {
    if |a| > 0 {
      assert (a + b)[0] == a[0];
      assert (a + b)[1..] == a[1..] + b;
      MetadataLinesAppend(a[1..], b);
      calc {
        MetadataLines(a + b);
        LineMetadata(a[0]) + MetadataLines(a[1..] + b);
        LineMetadata(a[0]) + (MetadataLines(a[1..]) + MetadataLines(b));
        (LineMetadata(a[0]) + MetadataLines(a[1..])) + MetadataLines(b);
      }
    } else {
      assert a + b == b;
    }
  }

  /** A line `p + "## " + t` whose first `"## "` is the one after `p` contributes exactly `t`, when `t` is not empty. */
  lemma MetadataOfLine(p: string, t: string)
    requires t != ""
    requires forall j: nat :: j < |p| ==> !OccursAt(p + "## " + t, "## ", j)
    ensures MetadataLines([p + "## " + t]) == [t]
  {
    var line := p + "## " + t;
    assert OccursAt(line, "## ", |p|);
    assert line[|p| + 3..] == t;
  }

  /** A line that starts with `"## "` contributes the rest of the line, when it is not empty. */
  lemma MetadataOfMarkedLine(t: string)
    requires t != ""
    ensures MetadataLines(["## " + t]) == [t]
  {
    MetadataOfLine("", t);
    assert "" + "## " + t == "## " + t;
  }

  /** A line without `"## "` contributes nothing. */
  lemma MetadataOfPlainLine(line: string)
    requires forall j: nat :: !OccursAt(line, "## ", j)
    ensures MetadataLines([line]) == []
  {
  }

  /** A line whose first `"## "` is at its very end contributes nothing: `ifEmpty { null }` drops it. */
  lemma MetadataOfEmptyMarker(p: string)
    requires forall j: nat :: j < |p| ==> !OccursAt(p + "## ", "## ", j)
    ensures MetadataLines([p + "## "]) == []
  {
    assert OccursAt(p + "## ", "## ", |p|);
  }

  // ---------------------------------------------------------------------------
  // Failure comment

  /** `failureComment(failure)`, given the repository URL or key and the cause's one-line summary. */
  function FailureComment(repoUrlOrKey: string, causeSummary: string): (r: string)
    ensures StartsWith(r, "## ") && IsCommentLine(r)
  {
    FailureCommentStart + repoUrlOrKey + " Cause: " + causeSummary
  }

  /** A failure comment may lead a version entry, and its metadata is the text after `"## "`. */
  lemma FailureCommentAsLeadingLine(repoUrlOrKey: string, causeSummary: string)
    ensures CommentOrBlankLines([FailureComment(repoUrlOrKey, causeSummary)])
    ensures MetadataLines([FailureComment(repoUrlOrKey, causeSummary)])
         == ["failed to check repo " + repoUrlOrKey + " Cause: " + causeSummary]
  {
    var t := "failed to check repo " + repoUrlOrKey + " Cause: " + causeSummary;
    assert FailureCommentStart == "## " + "failed to check repo ";
    assert FailureComment(repoUrlOrKey, causeSummary) == "## " + t;
    MetadataOfMarkedLine(t);
  }

  /** A failure comment among the trailing lines always makes construction fail. */
  lemma FailureCommentRejectedAsTrailingLine(
    leading: seq<string>, key: string, currentVersion: string, availableUpdates: seq<string>,
    trailing: seq<string>, k: nat, repoUrlOrKey: string, causeSummary: string)
    requires k < |trailing| && trailing[k] == FailureComment(repoUrlOrKey, causeSummary)
    ensures NewVersionEntry(leading, key, currentVersion, availableUpdates, trailing).Failure?
  {
    assert !IsTrailingLine(trailing[k]);
  }

  // ---------------------------------------------------------------------------
  // Generated header

  /** `versionsPropertiesHeader(version, dependencyNotationRemovalsRevision)`. */
  function VersionsPropertiesHeader(version: string, removalsRevision: Option<Int32>): string {
    var revisionLine := match removalsRevision
      case Some(n) => RemovalsRevisionLineStart + IntToDecimal(n as int) + "\n"
      case None => "";
    HeaderTitle + "\n" + (GeneratedByLineStart + version) + "\n" + (revisionLine + Join(HeaderEndLines, "\n"))
  }

  /** The line after the generated-by line, present exactly when there is a removals revision. */
  function RevisionLines(removalsRevision: Option<Int32>): seq<string> {
    match removalsRevision
    case Some(n) => [RemovalsRevisionLineStart + IntToDecimal(n as int)]
    case None => []
  }

  lemma HeaderEndLinesHaveNoBreak()
    ensures forall k :: 0 <= k < |HeaderEndLines| ==> NoLineBreak(HeaderEndLines[k])
  {
    HeaderEndLinesHaveNoBreakBelow3();
    HeaderEndLinesHaveNoBreakFrom3();
    forall k | 0 <= k < |HeaderEndLines| ensures NoLineBreak(HeaderEndLines[k]) {
      if k >= 3 { assert HeaderEndLines[k] == HeaderEndLines[3..][k - 3]; }
    }
  }

  lemma HeaderEndLinesHaveNoBreakBelow3()
    ensures forall k :: 0 <= k < 3 ==> NoLineBreak(HeaderEndLines[k])
  {
    HeaderEndLineHasNoBreakAt1();
  }

  lemma HeaderEndLineHasNoBreakAt1()
    ensures NoLineBreak(HeaderEndLines[1])
  {
    var a, b, c := "#### Don't manually ", "edit or split the ", "comments that start ";
    var d, e := "with four hashtags ", "(####),";
    assert NoLineBreak(a) && NoLineBreak(b) && NoLineBreak(c);
    assert NoLineBreak(d) && NoLineBreak(e);
    NoLineBreakConcat(a, b);
    NoLineBreakConcat(a + b, c);
    NoLineBreakConcat(a + b + c, d);
    NoLineBreakConcat(a + b + c + d, e);
  }

  lemma HeaderEndLinesHaveNoBreakFrom3()
    ensures forall k :: 0 <= k < 3 ==> NoLineBreak(HeaderEndLines[3..][k])
  {
    HeaderEndLineHasNoBreakAt4();
  }

  lemma HeaderEndLineHasNoBreakAt4()
    ensures NoLineBreak(HeaderEndLines[4])
  {
  }

  lemma HeaderStartHasNoBreak()
    ensures NoLineBreak(HeaderTitle) && NoLineBreak(GeneratedByLineStart) && NoLineBreak(RemovalsRevisionLineStart)
  {
    HeaderTitleHasNoBreak();
    GeneratedByLineStartHasNoBreak();
  }

  lemma HeaderTitleHasNoBreak()
    ensures NoLineBreak(HeaderTitle)
  {
  }

  lemma GeneratedByLineStartHasNoBreak()
    ensures NoLineBreak(GeneratedByLineStart)
  {
  }

  /** The lines after the generated-by line. */
  lemma HeaderTailLines(removalsRevision: Option<Int32>)
    ensures Lines((match removalsRevision
                   case Some(n) => RemovalsRevisionLineStart + IntToDecimal(n as int) + "\n"
                   case None => "") + Join(HeaderEndLines, "\n"))
         == RevisionLines(removalsRevision) + HeaderEndLines
  {
    var tail := Join(HeaderEndLines, "\n");
    HeaderEndLinesHaveNoBreak();
    LinesOfJoin(HeaderEndLines);
    match removalsRevision {
      case Some(n) =>
        var line := RemovalsRevisionLineStart + IntToDecimal(n as int);
        IntToDecimalChars(n as int);
        HeaderStartHasNoBreak();
        NoLineBreakConcat(RemovalsRevisionLineStart, IntToDecimal(n as int));
        LinesSplit(line, tail);
        LinesOfLine(line);
      case None =>
        assert "" + tail == tail;
    }
  }

  /** The header's lines, when the version has no line break: title, generated-by, optional revision, fixed end. */
  lemma HeaderLines(version: string, removalsRevision: Option<Int32>)
    requires NoLineBreak(version)
    ensures Lines(VersionsPropertiesHeader(version, removalsRevision))
         == [HeaderTitle, GeneratedByLineStart + version] + RevisionLines(removalsRevision) + HeaderEndLines
  {
    var rest := (match removalsRevision
                 case Some(n) => RemovalsRevisionLineStart + IntToDecimal(n as int) + "\n"
                 case None => "") + Join(HeaderEndLines, "\n");
    HeaderTailLines(removalsRevision);
    HeaderStartHasNoBreak();
    NoLineBreakConcat(GeneratedByLineStart, version);
    LinesOfTwoThen(HeaderTitle, GeneratedByLineStart + version, rest);
  }

  /** Every line of the generated header starts with the four-hash prefix (the source's `assert`). */
  lemma HeaderLinesArePrefixed(version: string, removalsRevision: Option<Int32>)
    requires NoLineBreak(version)
    ensures forall line :: line in Lines(VersionsPropertiesHeader(version, removalsRevision))
              ==> StartsWith(line, HeaderLinesPrefix)
  {
    HeaderLines(version, removalsRevision);
    HeaderLinesStartWithPrefix();
    StartsWithAppend(GeneratedByLineStart, version, HeaderLinesPrefix);
    match removalsRevision {
      case Some(n) => StartsWithAppend(RemovalsRevisionLineStart, IntToDecimal(n as int), HeaderLinesPrefix);
      case None =>
    }
  }

  lemma HeaderLinesStartWithPrefix()
    ensures StartsWith(HeaderTitle, HeaderLinesPrefix)
    ensures StartsWith(GeneratedByLineStart, HeaderLinesPrefix)
    ensures StartsWith(RemovalsRevisionLineStart, HeaderLinesPrefix)
    ensures forall k :: 0 <= k < |HeaderEndLines| ==> StartsWith(HeaderEndLines[k], HeaderLinesPrefix)
  {
    assert StartsWith(HeaderEndLines[0], HeaderLinesPrefix);
    assert StartsWith(HeaderEndLines[1], HeaderLinesPrefix);
    assert StartsWith(HeaderEndLines[2], HeaderLinesPrefix);
    assert StartsWith(HeaderEndLines[3], HeaderLinesPrefix);
    assert StartsWith(HeaderEndLines[4], HeaderLinesPrefix);
    assert StartsWith(HeaderEndLines[5], HeaderLinesPrefix);
  }
}
