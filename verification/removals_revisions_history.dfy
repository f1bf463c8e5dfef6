/**
 * The removals-revisions history: a Markdown ledger of removed dependency notations, grouped
 * under `## Revision N` headings, with at most one open `## [WIP] Revision N+1` heading that
 * collects removals until a release finalises it. Recording a batch of removals appends text
 * to the ledger and never rewrites what is already there.
 */
module RemovalsRevisionsHistory {
  import opened Wrappers
  import opened Text
  import opened BundledDependencies

  /** Why a batch cannot be recorded (`NoSuchElementException` and `NumberFormatException` in the source). */
  datatype LedgerError =
    | NoRevisionHeading                  // no line starts with `## Revision `
    | RevisionNotAnInteger(text: string) // the last one does not carry an `Int`

  const WipMarker := "## [WIP]"
  const RevisionHeadingStart := "## Revision "
  const WipHeadingStart := "## [WIP] Revision "

  // ---------------------------------------------------------------------------
  // Separating the new text from the ledger

  /** The line breaks that leave exactly one blank line between the ledger and the new text. */
  function LineBreaks(history: string): (r: string)
    ensures EndsWith(history + r, "\n\n")
    ensures r == "" <==> EndsWith(history, "\n\n")
    ensures r == "\n" <==> EndsWith(history, "\n") && !EndsWith(history, "\n\n")
    ensures r == "\n\n" <==> !EndsWith(history, "\n")
  {
    if EndsWith(history, "\n\n") then ""
    else if EndsWith(history, "\n") then
      assert (history + "\n")[|history + "\n"| - 2..] == [history[|history| - 1], '\n'];
      "\n"
    else
      assert (history + "\n\n")[|history + "\n\n"| - 2..] == "\n\n";
      "\n\n"
  }

  /** The ledger without the line breaks that end it, at most two of them. */
  function BeforeSeparator(history: string): (r: string)
    ensures StartsWith(history, r)
    ensures r + "\n\n" == history + LineBreaks(history)
  {
    var padded := history + LineBreaks(history);
    var r := padded[..|padded| - 2];
    assert padded == r + "\n\n";
    assert history[..|r|] == r;
    r
  }

  // ---------------------------------------------------------------------------
  // The revision headings

  /** Some line of the ledger opens a work-in-progress revision. */
  predicate HasWipHeading(history: string) {
    exists k :: 0 <= k < |Lines(history)| && StartsWith(Lines(history)[k], WipMarker)
  }

  /** The index of the last line that starts with `prefix`. */
  function LastMatching(lines: seq<string>, prefix: string): (r: Option<nat>)
    ensures r.Some? ==> r.value < |lines| && StartsWith(lines[r.value], prefix)
    ensures r.Some? ==> forall j :: r.value < j < |lines| ==> !StartsWith(lines[j], prefix)
    ensures r.None? <==> forall j :: 0 <= j < |lines| ==> !StartsWith(lines[j], prefix)
  {
    if |lines| == 0 then None
    else if StartsWith(lines[|lines| - 1], prefix) then Some(|lines| - 1)
    else LastMatching(lines[..|lines| - 1], prefix)
  }

  /** The number text of a revision heading: after the heading start, up to the first space. */
  function RevisionText(line: string): (r: string)
    ensures ' ' !in r
    ensures StartsWith(line, RevisionHeadingStart) ==> StartsWith(line[|RevisionHeadingStart|..], r)
    ensures StartsWith(line, RevisionHeadingStart) && |r| < |line| - |RevisionHeadingStart| ==>
              line[|RevisionHeadingStart| + |r|] == ' '
  {
    var after := SubstringAfter(line, RevisionHeadingStart, line);
    assert StartsWith(line, RevisionHeadingStart) ==> after == line[|RevisionHeadingStart|..] by {
      if StartsWith(line, RevisionHeadingStart) {
        SubstringAfterPrefix(line, RevisionHeadingStart, line);
      }
    }
    SubstringBefore(after, ' ')
  }

  /** The revision of the last `## Revision ` line, read as a Kotlin `Int`. */
  function LastRevision(history: string): (r: Result<Int32, LedgerError>)
    ensures r == Failure(NoRevisionHeading) <==>
              forall j :: 0 <= j < |Lines(history)| ==> !StartsWith(Lines(history)[j], RevisionHeadingStart)
    ensures r.Success? ==>
              var k := LastMatching(Lines(history), RevisionHeadingStart).value;
              ParseInt32(RevisionText(Lines(history)[k])) == Some(r.value)
    ensures r.Failure? && r.error != NoRevisionHeading ==>
              LastMatching(Lines(history), RevisionHeadingStart).Some? &&
              var k := LastMatching(Lines(history), RevisionHeadingStart).value;
              r.error == RevisionNotAnInteger(RevisionText(Lines(history)[k]))
              && ParseInt32(RevisionText(Lines(history)[k])).None?
  {
    match LastMatching(Lines(history), RevisionHeadingStart)
    case None => Failure(NoRevisionHeading)
    case Some(k) =>
      var text := RevisionText(Lines(history)[k]);
      match ParseInt32(text)
      case None => Failure(RevisionNotAnInteger(text))
      case Some(n) => Success(n)
  }

  /** The heading line that opens the next revision. */
  function WipHeadingLine(lastRevision: Int32): (r: string)
    ensures StartsWith(r, WipMarker)
    ensures NoLineBreak(r)
  {
    IntToDecimalChars(Inc(lastRevision) as int);
    assert StartsWith(WipHeadingStart, WipMarker);
    StartsWithAppend(WipHeadingStart, IntToDecimal(Inc(lastRevision) as int), WipMarker);
    WipHeadingStart + IntToDecimal(Inc(lastRevision) as int)
  }

  /** A revision heading line followed, up to the first space, by `n`'s decimal text reads as `n`. */
  lemma RevisionTextOf(n: Int32, comment: string)
    requires comment == "" || comment[0] == ' '
    ensures ParseInt32(RevisionText(RevisionHeadingStart + IntToDecimal(n as int) + comment)) == Some(n)
  {
    var digits := IntToDecimal(n as int);
    var line := RevisionHeadingStart + digits + comment;
    assert line[..|RevisionHeadingStart|] == RevisionHeadingStart;
    SubstringAfterPrefix(line, RevisionHeadingStart, line);
    assert line[|RevisionHeadingStart|..] == digits + comment;
    IntToDecimalChars(n as int);
    if comment == "" {
      assert digits + comment == digits;
      SubstringBeforeMissing(digits, ' ');
    } else {
      assert digits + comment == digits + [' '] + comment[1..];
      SubstringBeforeFirst(digits, ' ', comment[1..]);
    }
    ParseIntToDecimal(n);
  }

  /** The last match in `xs + [line] + ys` is `line` when nothing in `ys` matches. */
  lemma {:induction false} LastMatchingAt(xs: seq<string>, line: string, ys: seq<string>, prefix: string)
    requires StartsWith(line, prefix)
    requires forall j :: 0 <= j < |ys| ==> !StartsWith(ys[j], prefix)
    ensures LastMatching(xs + [line] + ys, prefix) == Some(|xs|)
    decreases |ys|
  {
    if |ys| > 0 {
      var all := xs + [line] + ys;
      assert all[..|all| - 1] == xs + [line] + ys[..|ys| - 1];
      assert all[|all| - 1] == ys[|ys| - 1];
      LastMatchingAt(xs, line, ys[..|ys| - 1], prefix);
    } else {
      assert xs + [line] + ys == xs + [line];
    }
  }

  /**
   * The revision that a new batch continues from is the one on the ledger's last
   * `## Revision ` line, whatever follows its number after a space.
   */
  lemma LastRevisionOfLedger(before: string, n: Int32, comment: string, after: string)
    requires NoLineBreak(comment) && (comment == "" || comment[0] == ' ')
    requires forall j :: 0 <= j < |Lines(after)| ==> !StartsWith(Lines(after)[j], RevisionHeadingStart)
    ensures LastRevision(before + "\n" + RevisionHeadingStart + IntToDecimal(n as int) + comment + "\n" + after)
              == Success(n)
  {
    var line := RevisionHeadingStart + IntToDecimal(n as int) + comment;
    RevisionHeadingLine(n, comment);
    HeadingBetween(before, RevisionHeadingStart, IntToDecimal(n as int), comment, after);
    LinesAround(before, line, after);
    RevisionTextOf(n, comment);
    LastRevisionOfSplit(before + "\n" + (line + "\n" + after), Lines(before), line, Lines(after), n);
  }

  /** The last revision heading of a ledger whose lines are `xs`, a heading, then `ys` without one. */
  lemma LastRevisionOfSplit(history: string, xs: seq<string>, line: string, ys: seq<string>, n: Int32)
    requires Lines(history) == xs + [line] + ys
    requires StartsWith(line, RevisionHeadingStart)
    requires forall j :: 0 <= j < |ys| ==> !StartsWith(ys[j], RevisionHeadingStart)
    requires ParseInt32(RevisionText(line)) == Some(n)
    ensures LastRevision(history) == Success(n)
  {
    LastMatchingAt(xs, line, ys, RevisionHeadingStart);
    assert Lines(history)[|xs|] == line;
  }

  lemma HeadingBetween(before: string, a: string, b: string, c: string, after: string)
    ensures before + "\n" + a + b + c + "\n" + after == before + "\n" + (a + b + c + "\n" + after)
  {
    var pre := before + "\n";
    ConcatAssoc(pre, a, b);
    ConcatAssoc(pre, a + b, c);
    ConcatAssoc(pre, a + b + c, "\n");
    ConcatAssoc(pre, a + b + c + "\n", after);
  }

  lemma RevisionHeadingLine(n: Int32, comment: string)
    requires NoLineBreak(comment)
    ensures NoLineBreak(RevisionHeadingStart + IntToDecimal(n as int) + comment)
    ensures StartsWith(RevisionHeadingStart + IntToDecimal(n as int) + comment, RevisionHeadingStart)
  {
    IntToDecimalChars(n as int);
    assert NoLineBreak(RevisionHeadingStart);
    NoLineBreakConcat(RevisionHeadingStart, IntToDecimal(n as int));
    NoLineBreakConcat(RevisionHeadingStart + IntToDecimal(n as int), comment);
    assert StartsWith(RevisionHeadingStart, RevisionHeadingStart);
    StartsWithAppend(RevisionHeadingStart, IntToDecimal(n as int), RevisionHeadingStart);
    StartsWithAppend(RevisionHeadingStart + IntToDecimal(n as int), comment, RevisionHeadingStart);
  }

  /** The lines around a single line placed between two texts. */
  lemma LinesAround(before: string, line: string, after: string)
    requires NoLineBreak(line)
    ensures Lines(before + "\n" + (line + "\n" + after)) == Lines(before) + [line] + Lines(after)
  {
    LinesSplit(before, line + "\n" + after);
    LinesOfLineThen(line, after);
    ConcatAssoc(Lines(before), [line], Lines(after));
  }

  // ---------------------------------------------------------------------------
  // Entries

  /** The struck-through constant name that opens an entry. */
  function StrikeLine(m: DependencyMapping): string {
    "~~" + m.constantName + "~~"
  }

  /** The module line that closes an entry. */
  function IdLine(m: DependencyMapping): string {
    "id:[" + m.ModuleId().group + ":" + m.ModuleId().name + "]"
  }

  /** The placeholder lines of a true removal, to be completed by hand. */
  const RemovalGuidance := [
    "**Remove this line " + "when comments are " + "complete.**",
    "// TODO: Put guidance " + "comment lines here.",
    "// We recommend " + "prefixing them with " + "\"FIXME:\" if the user " + "should take further " + "action,",
    "// such as using new " + "maven coordinates, " + "or stop depending on " + "the deprecated " + "library.",
    "moved:[<insert " + "replacement " + "group:name here, " + "or remove this line>]"
  ]

  /** The same module is still bundled under another constant name: the removal is a rename. */
  predicate StillExistsWithAnotherName(currentMapping: set<DependencyMapping>, removed: DependencyMapping) {
    exists c :: c in currentMapping && c.ModuleId() == removed.ModuleId()
  }

  /** The lines of the entry recorded for a removed notation. */
  function EntryLines(currentMapping: set<DependencyMapping>, removed: DependencyMapping): (r: seq<string>)
    ensures |r| == if StillExistsWithAnotherName(currentMapping, removed) then 2 else 2 + |RemovalGuidance|
    ensures r[0] == StrikeLine(removed) && r[|r| - 1] == IdLine(removed)
  {
    if StillExistsWithAnotherName(currentMapping, removed) then [StrikeLine(removed), IdLine(removed)]
    else [StrikeLine(removed)] + RemovalGuidance + [IdLine(removed)]
  }

  /** The entry recorded for a removed notation: its lines, one per line. */
  function Entry(currentMapping: set<DependencyMapping>, removed: DependencyMapping): (r: string)
    ensures StartsWith(r, StrikeLine(removed) + "\n")
    ensures EndsWith(r, "\n" + IdLine(removed))
  {
    var lines := EntryLines(currentMapping, removed);
    JoinOpensWith(lines, "\n");
    JoinClosesWith(lines, "\n");
    Join(lines, "\n")
  }

  /** Names that fit on one line. */
  predicate SingleLineNames(m: DependencyMapping) {
    NoLineBreak(m.group) && NoLineBreak(m.artifact) && NoLineBreak(m.constantName)
  }

  lemma RemovalGuidanceHasNoBreak()
    ensures forall k :: 0 <= k < |RemovalGuidance| ==> NoLineBreak(RemovalGuidance[k])
  {
    RemovalGuidanceHasNoBreakAt0And1();
    RemovalGuidanceHasNoBreakAt2And3();
    RemovalGuidanceHasNoBreakAt4();
  }

  lemma RemovalGuidanceHasNoBreakAt0And1()
    ensures NoLineBreak(RemovalGuidance[0]) && NoLineBreak(RemovalGuidance[1])
  {
  }

  lemma RemovalGuidanceHasNoBreakAt2And3()
    ensures NoLineBreak(RemovalGuidance[2]) && NoLineBreak(RemovalGuidance[3])
  {
    var a, b, c := "// We recommend ", "prefixing them with ", "\"FIXME:\" if the user ";
    var d, e := "should take further ", "action,";
    assert NoLineBreak(a) && NoLineBreak(b) && NoLineBreak(c);
    assert NoLineBreak(d) && NoLineBreak(e);
    NoLineBreakConcat(a, b);
    NoLineBreakConcat(a + b, c);
    NoLineBreakConcat(a + b + c, d);
    NoLineBreakConcat(a + b + c + d, e);
    RemovalGuidanceHasNoBreakAt3();
  }

  lemma RemovalGuidanceHasNoBreakAt3()
    ensures NoLineBreak(RemovalGuidance[3])
  {
    var a, b, c := "// such as using new ", "maven coordinates, ", "or stop depending on ";
    var d, e := "the deprecated ", "library.";
    assert NoLineBreak(a) && NoLineBreak(b) && NoLineBreak(c);
    assert NoLineBreak(d) && NoLineBreak(e);
    NoLineBreakConcat(a, b);
    NoLineBreakConcat(a + b, c);
    NoLineBreakConcat(a + b + c, d);
    NoLineBreakConcat(a + b + c + d, e);
  }

  lemma RemovalGuidanceHasNoBreakAt4()
    ensures NoLineBreak(RemovalGuidance[4])
  {
  }

  /** An entry reads back as exactly its template lines: two for a rename, seven for a removal. */
  lemma EntryReadsAsLines(currentMapping: set<DependencyMapping>, removed: DependencyMapping)
    requires SingleLineNames(removed)
    ensures Lines(Entry(currentMapping, removed)) == EntryLines(currentMapping, removed)
  {
    var lines := EntryLines(currentMapping, removed);
    RemovalGuidanceHasNoBreak();
    assert NoLineBreak(StrikeLine(removed));
    assert NoLineBreak(IdLine(removed));
    forall k | 0 <= k < |lines| ensures NoLineBreak(lines[k]) {
      if !StillExistsWithAnotherName(currentMapping, removed) && 0 < k < |lines| - 1 {
        assert lines[k] == RemovalGuidance[k - 1];
      }
    }
    LinesOfJoin(lines);
  }

  /** The entries of a batch, in the order the removals are visited. */
  function EntryTexts(currentMapping: set<DependencyMapping>, removals: seq<DependencyMapping>): (r: seq<string>)
    ensures |r| == |removals|
    ensures forall i :: 0 <= i < |removals| ==> r[i] == Entry(currentMapping, removals[i])
  {
    seq(|removals|, i requires 0 <= i < |removals| => Entry(currentMapping, removals[i]))
  }

  /** The entries separated by a blank line, terminated by a line break. */
  function EntriesText(currentMapping: set<DependencyMapping>, removals: seq<DependencyMapping>): (r: string)
    ensures EndsWith(r, "\n")
  {
    Join(EntryTexts(currentMapping, removals), "\n\n") + "\n"
  }

  /** The template lines of each removal. */
  function EntryBlocks(currentMapping: set<DependencyMapping>, removals: seq<DependencyMapping>)
    : (r: seq<seq<string>>)
    ensures |r| == |removals|
    ensures forall i :: 0 <= i < |removals| ==> r[i] == EntryLines(currentMapping, removals[i])
  {
    seq(|removals|, i requires 0 <= i < |removals| => EntryLines(currentMapping, removals[i]))
  }

  /**
   * The entries text holds exactly one entry per removal, in order, each one its template lines,
   * with a blank line between consecutive entries and a line break at the end.
   */
  lemma EntriesTextLines(currentMapping: set<DependencyMapping>, removals: seq<DependencyMapping>)
    requires |removals| >= 1
    requires forall i :: 0 <= i < |removals| ==> SingleLineNames(removals[i])
    ensures Lines(EntriesText(currentMapping, removals)) == Stack(EntryBlocks(currentMapping, removals)) + [""]
  {
    var texts := EntryTexts(currentMapping, removals);
    LinesOfParagraphs(texts);
    forall i | 0 <= i < |removals| ensures LinesOfEach(texts)[i] == EntryBlocks(currentMapping, removals)[i] {
      EntryReadsAsLines(currentMapping, removals[i]);
    }
    assert LinesOfEach(texts) == EntryBlocks(currentMapping, removals);
  }

  // ---------------------------------------------------------------------------
  // The appended text

  /**
   * The text a batch of removals appends to the ledger: the separating line breaks, a new
   * `## [WIP] Revision N+1` heading unless one is already open, then the entries.
   */
  function ExtraText(history: string, currentMapping: set<DependencyMapping>, removals: seq<DependencyMapping>)
    : (r: Result<string, LedgerError>)
    ensures r.Failure? <==> !HasWipHeading(history) && LastRevision(history).Failure?
    ensures r.Failure? ==> r.error == LastRevision(history).error
    ensures r.Success? ==> EndsWith(r.value, "\n")
  {
    match NewHeading(history)
    case Failure(e) => Failure(e)
    case Success(heading) =>
      var entries := EntriesText(currentMapping, removals);
      EndsWithAppend(LineBreaks(history) + heading, entries, "\n");
      Success(LineBreaks(history) + heading + entries)
  }

  /** The heading a batch adds: none under an open revision, else the one after the last revision. */
  function NewHeading(history: string): (r: Result<string, LedgerError>)
    ensures r.Failure? <==> !HasWipHeading(history) && LastRevision(history).Failure?
    ensures r.Failure? ==> r.error == LastRevision(history).error
    ensures HasWipHeading(history) ==> r == Success("")
  {
    if HasWipHeading(history) then Success("")
    else match LastRevision(history)
      case Failure(e) => Failure(e)
      case Success(n) => Success(WipHeadingLine(n) + "\n" + "\n")
  }

  /** The recorded ledger: its text before the separator, one blank line, the heading if any, the entries. */
  lemma RecordedLedger(history: string, currentMapping: set<DependencyMapping>, removals: seq<DependencyMapping>)
    requires ExtraText(history, currentMapping, removals).Success?
    ensures history + ExtraText(history, currentMapping, removals).value
              == BeforeSeparator(history) + "\n" + ("" + "\n" + (NewHeading(history).value + EntriesText(currentMapping, removals)))
  {
    var extra := ExtraText(history, currentMapping, removals).value;
    var breaks, heading, entries := LineBreaks(history), NewHeading(history).value, EntriesText(currentMapping, removals);
    assert extra == breaks + heading + entries;
    SeparatedAppend(history, breaks, BeforeSeparator(history), heading, entries);
  }

  /** Regrouping `history + breaks + x + y`, where `history + breaks` ends in a blank line. */
  lemma SeparatedAppend(history: string, breaks: string, before: string, x: string, y: string)
    requires history + breaks == before + "\n\n"
    ensures history + (breaks + x + y) == before + "\n" + ("" + "\n" + (x + y))
  {
    calc {
      history + (breaks + x + y);
      { ConcatAssoc(history, breaks + x, y); ConcatAssoc(history, breaks, x); }
      history + breaks + x + y;
      { ConcatAssoc(before + "\n\n", x, y); }
      before + "\n\n" + (x + y);
      { assert "\n\n" == "\n" + ("" + "\n"); ConcatAssoc(before, "\n", "" + "\n"); }
      before + "\n" + ("" + "\n") + (x + y);
      { ConcatAssoc(before + "\n", "" + "\n", x + y); }
      before + "\n" + ("" + "\n" + (x + y));
    }
  }

  lemma TwoBreaksBetween(a: string, b: string)
    ensures a + "\n" + "\n" + b == a + ("\n" + "\n" + b)
  {
    ConcatAssoc(a + "\n", "\n", b);
    ConcatAssoc(a, "\n", "\n" + b);
    ConcatAssoc("\n", "\n", b);
  }

  /** After a batch has been recorded, the ledger has an open work-in-progress revision. */
  lemma {:induction false} RecordedLedgerHasWipHeading(
    history: string, currentMapping: set<DependencyMapping>, removals: seq<DependencyMapping>)
    requires ExtraText(history, currentMapping, removals).Success?
    ensures HasWipHeading(history + ExtraText(history, currentMapping, removals).value)
  {
    var extra := ExtraText(history, currentMapping, removals).value;
    if HasWipHeading(history) {
      var k :| 0 <= k < |Lines(history)| && StartsWith(Lines(history)[k], WipMarker);
      LinesPrefix(history, extra);
      StartsWithTransitive(Lines(history + extra)[k], Lines(history)[k], WipMarker);
    } else {
      NewHeadingIsWip(history, currentMapping, removals);
    }
  }

  /** Without an open revision, the heading the batch adds is itself a line marked WIP. */
  lemma NewHeadingIsWip(history: string, currentMapping: set<DependencyMapping>, removals: seq<DependencyMapping>)
    requires ExtraText(history, currentMapping, removals).Success?
    requires !HasWipHeading(history)
    ensures HasWipHeading(history + ExtraText(history, currentMapping, removals).value)
  {
    var extra := ExtraText(history, currentMapping, removals).value;
    var heading := WipHeadingLine(LastRevision(history).value);
    var entries := EntriesText(currentMapping, removals);
    var rest := "\n" + "\n" + entries;
    var before := BeforeSeparator(history);
    assert NewHeading(history).value + entries == heading + rest by {
      assert NewHeading(history).value == heading + "\n" + "\n";
      TwoBreaksBetween(heading, entries);
    }
    RecordedLedger(history, currentMapping, removals);
    assert history + extra == before + "\n" + ("" + "\n" + (heading + rest));
    LineAfterBlank(before, heading + rest);
    FirstLineStartsWith(heading, rest);
    StartsWithTransitive(Lines(heading + rest)[0], heading, WipMarker);
  }

  /** The line after a blank line is the first line of what follows it. */
  lemma LineAfterBlank(before: string, after: string)
    ensures |Lines(before)| + 1 < |Lines(before + "\n" + ("" + "\n" + after))|
    ensures Lines(before + "\n" + ("" + "\n" + after))[|Lines(before)| + 1] == Lines(after)[0]
  {
    LinesSplit(before, "" + "\n" + after);
    LinesSplit("", after);
  }

  /**
   * A second batch recorded before the revision is finalised goes under the same open heading:
   * it adds its entries and no new heading, so the revision number is not bumped twice.
   */
  lemma SecondBatchDoesNotBump(
    history: string, currentMapping: set<DependencyMapping>, removals: seq<DependencyMapping>,
    laterMapping: set<DependencyMapping>, laterRemovals: seq<DependencyMapping>)
    requires ExtraText(history, currentMapping, removals).Success?
    ensures var ledger := history + ExtraText(history, currentMapping, removals).value;
            ExtraText(ledger, laterMapping, laterRemovals)
              == Success(LineBreaks(ledger) + EntriesText(laterMapping, laterRemovals))
  {
    var ledger := history + ExtraText(history, currentMapping, removals).value;
    RecordedLedgerHasWipHeading(history, currentMapping, removals);
    NoNewHeadingUnderWip(ledger, laterMapping, laterRemovals);
  }

  lemma NoNewHeadingUnderWip(ledger: string, laterMapping: set<DependencyMapping>, laterRemovals: seq<DependencyMapping>)
    requires HasWipHeading(ledger)
    ensures ExtraText(ledger, laterMapping, laterRemovals)
              == Success(LineBreaks(ledger) + EntriesText(laterMapping, laterRemovals))
  {
    assert NewHeading(ledger) == Success("");
    ConcatEmpty(LineBreaks(ledger), EntriesText(laterMapping, laterRemovals));
  }

  /**
   * Recording a batch on a ledger without an open revision: the ledger's text, one blank line,
   * the heading of the revision after the last one, one blank line, then the entries.
   */
  lemma NewRevisionLedgerLines(
    history: string, currentMapping: set<DependencyMapping>, removals: seq<DependencyMapping>, lastRevision: Int32)
    requires !HasWipHeading(history) && LastRevision(history) == Success(lastRevision)
    requires |removals| >= 1 && forall i :: 0 <= i < |removals| ==> SingleLineNames(removals[i])
    ensures ExtraText(history, currentMapping, removals).Success?
    ensures Lines(history + ExtraText(history, currentMapping, removals).value)
              == Lines(BeforeSeparator(history)) + ["", WipHeadingStart + IntToDecimal(Inc(lastRevision) as int), ""]
                 + Stack(EntryBlocks(currentMapping, removals)) + [""]
  {
    var heading := WipHeadingLine(lastRevision);
    var entries := EntriesText(currentMapping, removals);
    RecordedLedgerLines(history, currentMapping, removals);
    assert NewHeading(history).value == heading + "\n" + "\n";
    LinesOfLineThenBlank(heading, entries);
    EntriesTextLines(currentMapping, removals);
    RegroupLines(Lines(BeforeSeparator(history)), heading, Stack(EntryBlocks(currentMapping, removals)));
  }

  /** Recording a batch under an open revision: the ledger's text, one blank line, then the entries. */
  lemma OpenRevisionLedgerLines(
    history: string, currentMapping: set<DependencyMapping>, removals: seq<DependencyMapping>)
    requires HasWipHeading(history)
    requires |removals| >= 1 && forall i :: 0 <= i < |removals| ==> SingleLineNames(removals[i])
    ensures ExtraText(history, currentMapping, removals).Success?
    ensures Lines(history + ExtraText(history, currentMapping, removals).value)
              == Lines(BeforeSeparator(history)) + [""] + Stack(EntryBlocks(currentMapping, removals)) + [""]
  {
    var entries := EntriesText(currentMapping, removals);
    var before := Lines(BeforeSeparator(history)) + [""];
    var blocks := Stack(EntryBlocks(currentMapping, removals));
    RecordedLedgerLines(history, currentMapping, removals);
    assert NewHeading(history).value == "";
    assert NewHeading(history).value + entries == entries;
    EntriesTextLines(currentMapping, removals);
    ConcatAssoc(before, blocks, [""]);
  }

  /** The recorded ledger's lines: those before the separator, one blank line, then those of the new text. */
  lemma RecordedLedgerLines(history: string, currentMapping: set<DependencyMapping>, removals: seq<DependencyMapping>)
    requires ExtraText(history, currentMapping, removals).Success?
    ensures Lines(history + ExtraText(history, currentMapping, removals).value)
              == Lines(BeforeSeparator(history)) + [""]
                 + Lines(NewHeading(history).value + EntriesText(currentMapping, removals))
  {
    var added := NewHeading(history).value + EntriesText(currentMapping, removals);
    RecordedLedger(history, currentMapping, removals);
    LinesSplit(BeforeSeparator(history), "" + "\n" + added);
    LinesOfLineThen("", added);
    ConcatAssoc(Lines(BeforeSeparator(history)), [""], Lines(added));
  }

  /** A renamed constant is recorded with the short entry: the struck-through name and the module. */
  lemma RenameGetsShortEntry(
    existing: set<DependencyMapping>, received: set<DependencyMapping>, before: DependencyMapping, after: DependencyMapping)
    requires before in existing && after in received && before !in received
    requires before.ModuleId() == after.ModuleId()
    ensures before in CheckRemovedNotations(existing, received, false).removals
    ensures EntryLines(received, before) == [StrikeLine(before), IdLine(before)]
  {
    assert StillExistsWithAnotherName(received, before);
  }

  /** A module that is no longer bundled at all gets the entry with the placeholders to complete. */
  lemma RemovalGetsGuidanceEntry(received: set<DependencyMapping>, removed: DependencyMapping)
    requires forall c :: c in received ==> c.ModuleId() != removed.ModuleId()
    ensures EntryLines(received, removed) == [StrikeLine(removed)] + RemovalGuidance + [IdLine(removed)]
  {
  }

  // ---------------------------------------------------------------------------
  // Building and appending the text

  /** `buildString { … }`: builds the text to append, piece by piece. */
  method BuildExtraText(history: string, currentMapping: set<DependencyMapping>, removals: seq<DependencyMapping>)
    returns (r: Result<string, LedgerError>)
    ensures r == ExtraText(history, currentMapping, removals)
  {
    var builder := LineBreaks(history);
    if !HasWipHeading(history) {
      var lastRevision := LastRevision(history);
      if lastRevision.Failure? {
        assert NewHeading(history).Failure?;
        return Failure(lastRevision.error);
      }
      var line := WipHeadingLine(lastRevision.value);
      ConcatAssoc(builder, line + "\n", "\n");
      ConcatAssoc(builder, line, "\n");
      builder := builder + line + "\n";
      builder := builder + "\n";
    } else {
      assert builder + "" == builder;
    }
    assert NewHeading(history).Success? && builder == LineBreaks(history) + NewHeading(history).value;
    var removedEntriesText := JoinEntries(currentMapping, removals);
    builder := builder + removedEntriesText;
    r := Success(builder);
  }

  /** `joinToString(separator = "\n\n", postfix = "\n")` over the entries, element by element. */
  method JoinEntries(currentMapping: set<DependencyMapping>, removals: seq<DependencyMapping>) returns (text: string)
    ensures text == EntriesText(currentMapping, removals)
  {
    ghost var entries := EntryTexts(currentMapping, removals);
    var joined := "";
    var i := 0;
    while i < |removals|
      invariant 0 <= i <= |removals|
      invariant joined == Join(entries[..i], "\n\n")
    {
      var entry := Entry(currentMapping, removals[i]);
      JoinPrefixStep(entries, i, "\n\n");
      if i > 0 {
        joined := joined + "\n\n" + entry;
      } else {
        joined := entry;
      }
      i := i + 1;
    }
    assert entries[..i] == entries;
    text := joined + "\n";
  }

  // ---------------------------------------------------------------------------
  // The removed-notations check as a whole

  /** How the removed-notations check ends, with the texts it writes. */
  datatype TrackingOutcome =
    | NothingToTrack                                   // the mapping did not change
    | FailsInCi                                        // changes were not committed
    | LedgerNotUpdated(error: LedgerError)             // the ledger update threw: nothing is written
    | Tracked(ledger: string, validatedMapping: string) // the new ledger and validated-mapping texts

  /**
   * The removed-notations check: reads the validated mapping (in file order), compares it with
   * the received one, records the removals in the ledger, and only then rewrites the validated file.
   */
  function TrackRemovedNotations(
    existing: seq<DependencyMapping>, received: set<DependencyMapping>, receivedLines: seq<string>,
    inCi: bool, ledger: string
  ): (r: TrackingOutcome)
    ensures r.NothingToTrack? <==> MappingSet(existing) == received
    ensures r.FailsInCi? <==> MappingSet(existing) != received && inCi
    ensures r.LedgerNotUpdated? <==>
      MappingSet(existing) != received && !inCi && MappingSet(existing) - received != {}
      && !HasWipHeading(ledger) && LastRevision(ledger).Failure?
    ensures r.LedgerNotUpdated? ==> r.error == LastRevision(ledger).error
    ensures r.Tracked? ==> r.validatedMapping == ValidatedMappingText(receivedLines)
    ensures r.Tracked? && MappingSet(existing) - received == {} ==> r.ledger == ledger
    ensures r.Tracked? && MappingSet(existing) - received != {} ==>
      var removals := RemovalsInOrder(existing, received);
      |removals| == |MappingSet(existing) - received|
      && ExtraText(ledger, received, removals).Success?
      && r.ledger == ledger + ExtraText(ledger, received, removals).value
      && |r.ledger| > |ledger| && EndsWith(r.ledger, "\n")
  {
    match CheckRemovedNotations(MappingSet(existing), received, inCi)
    case Unchanged => NothingToTrack
    case UncommittedInCi => FailsInCi
    case Updated(removed) =>
      var removals := RemovalsInOrder(existing, received);
      RemovalsInOrderCount(existing, received);
      if removals == [] then Tracked(ledger, ValidatedMappingText(receivedLines))
      else
        match ExtraText(ledger, received, removals)
        case Failure(e) => LedgerNotUpdated(e)
        case Success(extra) =>
          EndsWithAppend(ledger, extra, "\n");
          Tracked(ledger + extra, ValidatedMappingText(receivedLines))
  }

  /** The ledger file: its text only grows. */
  class LedgerFile {
    var text: string

    constructor (text: string)
      ensures this.text == text
    {
      this.text := text;
    }

    /**
     * `updateRemovalsRevisionsHistory`: appends the entries of a batch of removals, under a new
     * work-in-progress revision heading unless one is open. On failure the file is left as it was.
     */
    method UpdateRemovalsRevisionsHistory(currentMapping: set<DependencyMapping>, removals: seq<DependencyMapping>)
      returns (error: Option<LedgerError>)
      modifies this
      ensures ExtraText(old(text), currentMapping, removals).Success? ==>
                error == None && text == old(text) + ExtraText(old(text), currentMapping, removals).value
      ensures ExtraText(old(text), currentMapping, removals).Failure? ==>
                error == Some(ExtraText(old(text), currentMapping, removals).error) && text == old(text)
      ensures StartsWith(text, old(text))
    {
      var extraText := BuildExtraText(text, currentMapping, removals);
      match extraText
      case Success(extra) =>
        text := text + extra;
        error := None;
      case Failure(e) =>
        error := Some(e);
    }
  }
}
