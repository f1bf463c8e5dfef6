/**
 * The pure parts of the bundled-dependencies bookkeeping: the comment filter applied to the
 * tracking files, the regeneration of the alias-rules file, the two change policies (removed
 * dependency notations, changed version keys) and the texts of the files those policies write.
 * File contents are plain strings here; reading and writing the files is not modelled.
 */
module BundledDependencies {
  import opened Wrappers
  import opened Text
  import opened Sorting

  /** `ModuleId.Maven`: the coordinates of a module. */
  datatype ModuleId = Maven(group: string, name: string)

  /** One bundled dependency notation: a module and the constant that names it. */
  datatype DependencyMapping = DependencyMapping(group: string, artifact: string, constantName: string)
  {
    function ModuleId(): ModuleId {
      Maven(group, artifact)
    }
  }

  // ---------------------------------------------------------------------------
  // `withoutComments`

  /** A line the tracking files count: it neither starts with `##` nor is blank. */
  predicate IsContentLine(line: string) {
    !StartsWith(line, "##") && !IsBlank(line)
  }

  /** `withoutComments()`: the lines that are neither `##` comments nor blank, in their order. */
  function WithoutComments(lines: seq<string>): (r: seq<string>)
    ensures |r| <= |lines|
    ensures forall k :: 0 <= k < |r| ==> IsContentLine(r[k])
    ensures forall x :: x in r <==> x in lines && IsContentLine(x)
  {
    if |lines| == 0 then []
    else if IsContentLine(lines[0]) then [lines[0]] + WithoutComments(lines[1..])
    else WithoutComments(lines[1..])
  }

  /** Filtering a concatenation filters each part and keeps them in order. */
  lemma {:induction false} WithoutCommentsAppend(a: seq<string>, b: seq<string>)
    ensures WithoutComments(a + b) == WithoutComments(a) + WithoutComments(b)
  {
    if |a| > 0 {
      assert (a + b)[1..] == a[1..] + b;
      WithoutCommentsAppend(a[1..], b);
    } else {
      assert a + b == b;
    }
  }

  /** Lines that are all content lines pass the filter unchanged. */
  lemma {:induction false} WithoutCommentsOfContent(lines: seq<string>)
    requires forall k :: 0 <= k < |lines| ==> IsContentLine(lines[k])
    ensures WithoutComments(lines) == lines
  {
    if |lines| > 0 {
      WithoutCommentsOfContent(lines[1..]);
      assert lines == [lines[0]] + lines[1..];
    }
  }

  /** Lines that are all `##` comments or blank are all dropped. */
  lemma {:induction false} WithoutCommentsOfComments(lines: seq<string>)
    requires forall k :: 0 <= k < |lines| ==> !IsContentLine(lines[k])
    ensures WithoutComments(lines) == []
  {
    if |lines| > 0 {
      WithoutCommentsOfComments(lines[1..]);
    }
  }

  /** Filtering twice is filtering once. */
  lemma WithoutCommentsIdempotent(lines: seq<string>)
    ensures WithoutComments(WithoutComments(lines)) == WithoutComments(lines)
  {
    WithoutCommentsOfContent(WithoutComments(lines));
  }

  // ---------------------------------------------------------------------------
  // The alias-rules file

  /**
   * The rules-file text: the rule texts sorted, without duplicates, separated by a blank line
   * and terminated by a line break. A rule is represented by its text and rules are ordered by
   * their text.
   */
  function RulesText(rules: seq<string>): (r: string)
    ensures EndsWith(r, "\n")
    ensures forall x :: x in rules ==> Contains(r, x)
  {
    var rulesText := Join(SortedDistinct(rules), "\n\n");
    assert forall x :: x in rules ==> Contains(rulesText + "\n", x) by {
      JoinHasParts(SortedDistinct(rules), "\n\n");
      forall x | x in rules ensures Contains(rulesText + "\n", x) {
        var k :| 0 <= k < |SortedDistinct(rules)| && SortedDistinct(rules)[k] == x;
        var j: nat :| OccursAt(rulesText, x, j);
        OccursBefore(rulesText, "\n", x, j);
      }
    }
    rulesText + "\n"
  }

  /** The rules text depends only on which rules exist: any reordering or repetition gives the same text. */
  lemma RulesTextIgnoresOrder(a: seq<string>, b: seq<string>)
    requires forall x :: x in a <==> x in b
    ensures RulesText(a) == RulesText(b)
  {
    SortedDistinctDependsOnElements(a, b);
  }

  /** What to do with a generated file. */
  datatype FileUpdate = Keep | Write(content: string)

  /** The file content after an update. */
  function Applied(current: string, u: FileUpdate): string {
    match u
    case Keep => current
    case Write(content) => content
  }

  /** The rules file is written only when its content differs from the rules text. */
  function RegenerateRulesFile(current: string, rules: seq<string>): (r: FileUpdate)
    ensures r.Keep? <==> current == RulesText(rules)
    ensures Applied(current, r) == RulesText(rules)
  {
    var content := RulesText(rules);
    if current != content then Write(content) else Keep
  }

  /** Regenerating right after a regeneration writes nothing. */
  lemma RegenerateRulesFileIdempotent(current: string, rules: seq<string>, reordered: seq<string>)
    requires forall x :: x in rules <==> x in reordered
    ensures RegenerateRulesFile(Applied(current, RegenerateRulesFile(current, rules)), reordered) == Keep
  {
    RulesTextIgnoresOrder(rules, reordered);
  }

  // ---------------------------------------------------------------------------
  // Generated tracking files

  /**
   * A tracking file: its `##` description lines, then one line per entry, each line terminated
   * by a line break (`joinToString("\n", prefix = description, postfix = "\n")`).
   */
  function TrackingFileText(description: seq<string>, entries: seq<string>): string {
    Join(description, "\n") + "\n" + Join(entries, "\n") + "\n"
  }

  /** A description block made of `##` lines. */
  predicate IsDescription(description: seq<string>) {
    |description| >= 1 &&
    forall k :: 0 <= k < |description| ==> IsDescriptionLine(description[k])
  }

  /** Entries that read back as themselves: one line each, none a comment or blank. */
  predicate AreEntryLines(entries: seq<string>) {
    forall k :: 0 <= k < |entries| ==> NoLineBreak(entries[k]) && IsContentLine(entries[k])
  }

  /** Reading a tracking file back with `withoutComments` gives exactly its entries. */
  lemma TrackingFileRoundTrip(description: seq<string>, entries: seq<string>)
    requires IsDescription(description)
    requires AreEntryLines(entries)
    ensures WithoutComments(Lines(TrackingFileText(description, entries))) == entries
  {
    var head, body := Join(description, "\n"), Join(entries, "\n") + "\n";
    assert TrackingFileText(description, entries) == head + "\n" + body;
    LinesSplit(head, body);
    LinesOfJoin(description);
    WithoutCommentsAppend(description, Lines(body));
    WithoutCommentsOfComments(description);
    BodyReadsBack(entries);
  }

  lemma BodyReadsBack(entries: seq<string>)
    requires AreEntryLines(entries)
    ensures WithoutComments(Lines(Join(entries, "\n") + "\n")) == entries
  {
    if |entries| == 0 {
      assert Lines("\n") == [""] + Lines("") by { LinesSplit("", ""); }
      assert !IsContentLine("");
    } else {
      assert Join(entries, "\n") + "\n" == Join(entries, "\n") + "\n" + "";
      LinesSplit(Join(entries, "\n"), "");
      LinesOfJoin(entries);
      WithoutCommentsAppend(entries, Lines(""));
      WithoutCommentsOfContent(entries);
      assert !IsContentLine("");
    }
  }

  /** The description of the validated dependency-mapping file. */
  const ValidateMappingDescription := [
    "## Generated by " + "BundledDependenciesTest." + "`Removed dependency " + "notations should be tracked`()",
    "## This test makes " + "sure we don't remove " + "a dependency notation " + "by accident",
    "## If it's on purpose " + "we should track them " + "in the file " + "\"removals-revisions-" + "history.md\""
  ]

  /** The description of the version-keys files. */
  const VersionKeysDescription := [
    "## Generated by " + "BundledDependenciesTest." + "`Version keys should " + "be up to date`()",
    "## Make sure that the " + "version keys you see " + "there are the ones " + "you want to see in " + "versions.properties"
  ]

  /** The description of the removed-version-keys file. */
  const RemoveKeysDescription := [
    "## Generated by " + "BundledDependenciesTest." + "`Version keys should " + "be up to date`()",
    "## This file keeps " + "track of version keys " + "that have been removed"
  ]

  /** A line of a description block: one line, a `##` comment. */
  predicate IsDescriptionLine(line: string) {
    NoLineBreak(line) && StartsWith(line, "##")
  }

  lemma ValidateMappingDescriptionIsDescription()
    ensures IsDescription(ValidateMappingDescription)
  {
    ValidateMappingDescriptionLine0();
    ValidateMappingDescriptionLine1();
    ValidateMappingDescriptionLine2();
  }

  lemma ValidateMappingDescriptionLine0()
    ensures IsDescriptionLine(ValidateMappingDescription[0])
  {
    var a, b, c, d := "## Generated by ", "BundledDependenciesTest.", "`Removed dependency ", "notations should be tracked`()";
    assert IsDescriptionLine(a);
    assert NoLineBreak(b) && NoLineBreak(c) && NoLineBreak(d);
    NoLineBreakConcat(a, b);
    NoLineBreakConcat(a + b, c);
    NoLineBreakConcat(a + b + c, d);
    StartsWithAppend(a, b, "##");
    StartsWithAppend(a + b, c, "##");
    StartsWithAppend(a + b + c, d, "##");
  }

  lemma ValidateMappingDescriptionLine1()
    ensures IsDescriptionLine(ValidateMappingDescription[1])
  {
    var a, b, c, d := "## This test makes ", "sure we don't remove ", "a dependency notation ", "by accident";
    assert IsDescriptionLine(a);
    assert NoLineBreak(b) && NoLineBreak(c) && NoLineBreak(d);
    NoLineBreakConcat(a, b);
    NoLineBreakConcat(a + b, c);
    NoLineBreakConcat(a + b + c, d);
    StartsWithAppend(a, b, "##");
    StartsWithAppend(a + b, c, "##");
    StartsWithAppend(a + b + c, d, "##");
  }

  lemma ValidateMappingDescriptionLine2()
    ensures IsDescriptionLine(ValidateMappingDescription[2])
  {
    var a, b, c, d, e := "## If it's on purpose ", "we should track them ", "in the file ", "\"removals-revisions-", "history.md\"";
    assert IsDescriptionLine(a);
    assert NoLineBreak(b) && NoLineBreak(c) && NoLineBreak(d) && NoLineBreak(e);
    NoLineBreakConcat(a, b);
    NoLineBreakConcat(a + b, c);
    NoLineBreakConcat(a + b + c, d);
    NoLineBreakConcat(a + b + c + d, e);
    StartsWithAppend(a, b, "##");
    StartsWithAppend(a + b, c, "##");
    StartsWithAppend(a + b + c, d, "##");
    StartsWithAppend(a + b + c + d, e, "##");
  }

  lemma VersionKeysDescriptionIsDescription()
    ensures IsDescription(VersionKeysDescription)
  {
    GeneratedByVersionKeysTestLine();
    VersionKeysDescriptionLine1();
  }

  lemma GeneratedByVersionKeysTestLine()
    ensures IsDescriptionLine(VersionKeysDescription[0])
    ensures IsDescriptionLine(RemoveKeysDescription[0])
  {
    var a, b, c, d := "## Generated by ", "BundledDependenciesTest.", "`Version keys should ", "be up to date`()";
    assert IsDescriptionLine(a);
    assert NoLineBreak(b) && NoLineBreak(c) && NoLineBreak(d);
    NoLineBreakConcat(a, b);
    NoLineBreakConcat(a + b, c);
    NoLineBreakConcat(a + b + c, d);
    StartsWithAppend(a, b, "##");
    StartsWithAppend(a + b, c, "##");
    StartsWithAppend(a + b + c, d, "##");
  }

  lemma VersionKeysDescriptionLine1()
    ensures IsDescriptionLine(VersionKeysDescription[1])
  {
    var a, b, c, d, e := "## Make sure that the ", "version keys you see ", "there are the ones ", "you want to see in ", "versions.properties";
    assert IsDescriptionLine(a);
    assert NoLineBreak(b) && NoLineBreak(c) && NoLineBreak(d) && NoLineBreak(e);
    NoLineBreakConcat(a, b);
    NoLineBreakConcat(a + b, c);
    NoLineBreakConcat(a + b + c, d);
    NoLineBreakConcat(a + b + c + d, e);
    StartsWithAppend(a, b, "##");
    StartsWithAppend(a + b, c, "##");
    StartsWithAppend(a + b + c, d, "##");
    StartsWithAppend(a + b + c + d, e, "##");
  }

  lemma RemoveKeysDescriptionIsDescription()
    ensures IsDescription(RemoveKeysDescription)
  {
    GeneratedByVersionKeysTestLine();
    RemoveKeysDescriptionLine1();
  }

  lemma RemoveKeysDescriptionLine1()
    ensures IsDescriptionLine(RemoveKeysDescription[1])
  {
    var a, b, c := "## This file keeps ", "track of version keys ", "that have been removed";
    assert IsDescriptionLine(a);
    assert NoLineBreak(b) && NoLineBreak(c);
    NoLineBreakConcat(a, b);
    NoLineBreakConcat(a + b, c);
    StartsWithAppend(a, b, "##");
    StartsWithAppend(a + b, c, "##");
  }

  // ---------------------------------------------------------------------------
  // Removed dependency notations

  /** How the check of the validated dependency mapping ends. */
  datatype NotationsOutcome =
    | Unchanged                                          // nothing to do
    | UncommittedInCi                                    // the check fails on CI
    | Updated(removals: set<DependencyMapping>)          // removals are recorded, then the file is rewritten

  /**
   * Compares the validated mapping with the one computed now: equal sets end the check,
   * a difference fails on CI, and otherwise the removals are the mappings that disappeared.
   */
  function CheckRemovedNotations(existing: set<DependencyMapping>, received: set<DependencyMapping>, inCi: bool)
    : (r: NotationsOutcome)
    ensures r.Unchanged? <==> existing == received
    ensures r.UncommittedInCi? <==> existing != received && inCi
    ensures r.Updated? ==> r.removals == existing - received && !inCi
    ensures r.Updated? ==> forall m :: m in r.removals <==> m in existing && m !in received
  {
    if received == existing then Unchanged
    else if inCi then UncommittedInCi
    else Updated(existing - received)
  }

  /** The set of mappings read from the validated file (`toSet()`). */
  function MappingSet(s: seq<DependencyMapping>): set<DependencyMapping> {
    set m | m in s
  }

  /**
   * `existingMapping - receivedMapping` in its iteration order: `toSet()` keeps the first
   * occurrence of each mapping in file order, and `minus` keeps the order of its receiver.
   */
  function RemovalsInOrder(existing: seq<DependencyMapping>, received: set<DependencyMapping>)
    : (r: seq<DependencyMapping>)
    ensures forall m :: m in r <==> m in existing && m !in received
    ensures forall i, j :: 0 <= i < j < |r| ==> r[i] != r[j]
  {
    if |existing| == 0 then []
    else
      var init, last := existing[..|existing| - 1], existing[|existing| - 1];
      assert existing == init + [last];
      if last in init || last in received then RemovalsInOrder(init, received)
      else RemovalsInOrder(init, received) + [last]
  }

  /** Removals keep file order: the removals among the first `k` lines come first. */
  lemma {:induction false} RemovalsInOrderOfPrefix(existing: seq<DependencyMapping>, received: set<DependencyMapping>, k: nat)
    requires k <= |existing|
    ensures RemovalsInOrder(existing[..k], received) <= RemovalsInOrder(existing, received)
  {
    if k < |existing| {
      var init := existing[..|existing| - 1];
      assert existing[..k] == init[..k];
      RemovalsInOrderOfPrefix(init, received, k);
    } else {
      assert existing[..k] == existing;
    }
  }

  /** A sequence without repetitions has as many elements as its set. */
  lemma {:induction false} UniqueMappingsCount(s: seq<DependencyMapping>)
    requires forall i, j :: 0 <= i < j < |s| ==> s[i] != s[j]
    ensures |MappingSet(s)| == |s|
  {
    if |s| > 0 {
      var init, last := s[..|s| - 1], s[|s| - 1];
      UniqueMappingsCount(init);
      assert s == init + [last];
      assert MappingSet(s) == MappingSet(init) + {last};
      assert last !in MappingSet(init);
    }
  }

  /** Every removed mapping is listed exactly once. */
  lemma RemovalsInOrderCount(existing: seq<DependencyMapping>, received: set<DependencyMapping>)
    ensures |RemovalsInOrder(existing, received)| == |MappingSet(existing) - received|
  {
    var r := RemovalsInOrder(existing, received);
    UniqueMappingsCount(r);
    assert MappingSet(r) == MappingSet(existing) - received;
  }

  /** The removals ledger is appended to only when some mapping disappeared. */
  predicate AppendsToLedger(o: NotationsOutcome) {
    o.Updated? && o.removals != {}
  }

  /** A mapping set compared with itself has nothing to record. */
  lemma NoRemovalsAgainstItself(mapping: set<DependencyMapping>, inCi: bool)
    ensures CheckRemovedNotations(mapping, mapping, inCi) == Unchanged
    ensures !AppendsToLedger(CheckRemovedNotations(mapping, mapping, inCi))
  {
  }

  /** Only additions: the validated file is rewritten but the ledger is left alone. */
  lemma AdditionsDoNotTouchLedger(existing: set<DependencyMapping>, received: set<DependencyMapping>)
    requires existing < received
    ensures CheckRemovedNotations(existing, received, false) == Updated({})
    ensures !AppendsToLedger(CheckRemovedNotations(existing, received, false))
  {
  }

  /** Renaming the constant of a module records the old notation as removed. */
  lemma RenameIsRemoval(
    existing: set<DependencyMapping>, received: set<DependencyMapping>, before: DependencyMapping, after: DependencyMapping)
    requires before in existing && after in received && before !in received
    requires before.ModuleId() == after.ModuleId()
    ensures AppendsToLedger(CheckRemovedNotations(existing, received, false))
    ensures before in CheckRemovedNotations(existing, received, false).removals
  {
  }

  /** The validated dependency-mapping file, given the rendered lines of the received mapping. */
  function ValidatedMappingText(receivedLines: seq<string>): (r: string)
    ensures AreEntryLines(receivedLines) ==> WithoutComments(Lines(r)) == receivedLines
  {
    var text := TrackingFileText(ValidateMappingDescription, receivedLines);
    assert AreEntryLines(receivedLines) ==> WithoutComments(Lines(text)) == receivedLines by {
      if AreEntryLines(receivedLines) {
        ValidateMappingDescriptionIsDescription();
        TrackingFileRoundTrip(ValidateMappingDescription, receivedLines);
      }
    }
    text
  }

  // ---------------------------------------------------------------------------
  // Version keys

  /** The sentinel key of modules no rule matches. */
  const NoRuleKey := "NO-RULE"

  const VersionPrefix := "version."

  /** The constant name recorded for modules no rule matches. */
  const NoRuleConstantName := VersionPrefix + NoRuleKey

  /** `"version.$key"`, with `NO-RULE` when no rule gives a key. */
  function VersionConstantName(key: Option<string>): (r: string)
    ensures StartsWith(r, VersionPrefix)
    ensures key.Some? ==> r[|VersionPrefix|..] == key.value
    ensures key.None? ==> r == NoRuleConstantName
    ensures r == NoRuleConstantName <==> key.None? || key.value == NoRuleKey
  {
    VersionPrefix + match key
      case Some(k) => k
      case None => NoRuleKey
  }

  /** The mapping with every constant name replaced by the version key its module reads. */
  function ReceivedVersionKeys(
    mapping: set<DependencyMapping>, readVersionKey: (string, string) -> Option<string>)
    : (r: set<DependencyMapping>)
    ensures forall d :: d in mapping ==>
              DependencyMapping(d.group, d.artifact, VersionConstantName(readVersionKey(d.group, d.artifact))) in r
    ensures forall m :: m in r ==>
              (exists d :: d in mapping && d.ModuleId() == m.ModuleId()) &&
              m.constantName == VersionConstantName(readVersionKey(m.group, m.artifact))
  {
    set d | d in mapping :: d.(constantName := VersionConstantName(readVersionKey(d.group, d.artifact)))
  }

  /** The version-keys file text, given the rendered lines of the received keys. */
  function ReceivedKeysText(receivedLines: seq<string>): (r: string)
    ensures AreEntryLines(receivedLines) ==> WithoutComments(Lines(r)) == receivedLines
  {
    var text := TrackingFileText(VersionKeysDescription, receivedLines);
    assert AreEntryLines(receivedLines) ==> WithoutComments(Lines(text)) == receivedLines by {
      if AreEntryLines(receivedLines) {
        VersionKeysDescriptionIsDescription();
        TrackingFileRoundTrip(VersionKeysDescription, receivedLines);
      }
    }
    text
  }

  /** How the version-keys check ends. */
  datatype VersionKeysOutcome =
    | BreakingChangesInCi(breakingChanges: set<DependencyMapping>)   // first CI assertion fails
    | NewKeysInCi(newKeys: set<DependencyMapping>)                   // second CI assertion fails
    | Accepted(breakingChanges: set<DependencyMapping>, rewriteRemovedKeys: bool)

  /** Some breaking change is a key worth recording, that is, not the `NO-RULE` sentinel. */
  predicate HasRecordableChange(breakingChanges: set<DependencyMapping>) {
    exists m :: m in breakingChanges && m.constantName != NoRuleConstantName
  }

  /**
   * Compares the validated version keys with the ones computed now. On CI any difference fails;
   * elsewhere the removed-keys file is rewritten when a breaking change is not a `NO-RULE` one.
   * In every accepted case the received keys then become the validated ones.
   */
  function CheckVersionKeys(existing: set<DependencyMapping>, received: set<DependencyMapping>, inCi: bool)
    : (r: VersionKeysOutcome)
    ensures r.BreakingChangesInCi? <==> inCi && !(existing <= received)
    ensures r.NewKeysInCi? <==> inCi && existing <= received && !(received <= existing)
    ensures r.Accepted? <==> !inCi || existing == received
    ensures r.BreakingChangesInCi? ==> r.breakingChanges == existing - received
    ensures r.NewKeysInCi? ==> r.newKeys == received - existing
    ensures r.Accepted? ==> r.breakingChanges == existing - received
    ensures r.Accepted? ==> (r.rewriteRemovedKeys <==> HasRecordableChange(existing - received))
  {
    var breakingChanges := existing - received;
    if inCi then
      if breakingChanges != {} then BreakingChangesInCi(breakingChanges)
      else
      assert existing <= received by {
        forall m | m in existing ensures m in received {
          assert m !in breakingChanges;
        }
      }
      if received - existing != {} then NewKeysInCi(received - existing)
      else Accepted(breakingChanges, false)
    else if breakingChanges != {} then
      var changesToWrite := set m | m in breakingChanges && m.constantName != NoRuleConstantName;
      assert HasRecordableChange(breakingChanges) <==> changesToWrite != {} by {
        if HasRecordableChange(breakingChanges) {
          var m :| m in breakingChanges && m.constantName != NoRuleConstantName;
          assert m in changesToWrite;
        }
      }
      Accepted(breakingChanges, changesToWrite != {})
    else Accepted(breakingChanges, false)
  }

  /** Keys that only lose their rule (now `NO-RULE`) never rewrite the removed-keys file. */
  lemma NoRuleChangesAreNotRecorded(existing: set<DependencyMapping>, received: set<DependencyMapping>, inCi: bool)
    requires forall m :: m in existing - received ==> m.constantName == NoRuleConstantName
    ensures CheckVersionKeys(existing, received, inCi).Accepted? ==>
              !CheckVersionKeys(existing, received, inCi).rewriteRemovedKeys
  {
  }

  /**
   * The rewritten removed-keys file: its description, the entries it already held and then every
   * breaking change, `NO-RULE` ones included.
   */
  function RemovedKeysText(previous: string, breakingLines: seq<string>): (r: string)
    ensures AreEntryLines(breakingLines) ==>
              WithoutComments(Lines(r)) == WithoutComments(Lines(previous)) + breakingLines
  {
    var entries := WithoutComments(Lines(previous)) + breakingLines;
    var text := TrackingFileText(RemoveKeysDescription, entries);
    assert AreEntryLines(breakingLines) ==> WithoutComments(Lines(text)) == entries by {
      if AreEntryLines(breakingLines) {
        RemoveKeysDescriptionIsDescription();
        TrackingFileRoundTrip(RemoveKeysDescription, entries);
      }
    }
    text
  }

  /** Rewriting the removed-keys file never loses an entry it held. */
  lemma RemovedKeysAccumulate(previous: string, breakingLines: seq<string>, line: string)
    requires AreEntryLines(breakingLines)
    requires line in WithoutComments(Lines(previous))
    ensures line in WithoutComments(Lines(RemovedKeysText(previous, breakingLines)))
  {
  }

  /** The rendered lines of a sequence of mappings (`toString` of each). */
  function RenderedLines(render: DependencyMapping -> string, ms: seq<DependencyMapping>): (r: seq<string>)
    ensures |r| == |ms|
    ensures forall i :: 0 <= i < |ms| ==> r[i] == render(ms[i])
  {
    seq(|ms|, i requires 0 <= i < |ms| => render(ms[i]))
  }

  /** Every rendered mapping reads back from the rewritten removed-keys file. */
  lemma RemovedKeysTextHoldsEach(previous: string, render: DependencyMapping -> string, ms: seq<DependencyMapping>)
    requires AreEntryLines(RenderedLines(render, ms))
    ensures forall m :: m in ms ==> render(m) in WithoutComments(Lines(RemovedKeysText(previous, RenderedLines(render, ms))))
  {
    var added := RenderedLines(render, ms);
    forall m | m in ms ensures render(m) in WithoutComments(Lines(previous)) + added {
      var i :| 0 <= i < |ms| && ms[i] == m;
      assert added[i] == render(m);
    }
  }

  /** How the version-keys check ends, with the texts it writes. */
  datatype VersionKeysRun =
    | KeysFailInCi(receivedKeys: string)                           // written, then an assertion fails
    | KeysAccepted(receivedKeys: string, removedKeys: Option<string>) // the received keys become the validated ones

  /**
   * The version-keys check as a whole: writes the received keys, compares them with the validated
   * keys (read in file order), and when a recordable key was removed rewrites the removed-keys file
   * with its previous entries followed by every breaking change, in file order.
   */
  function TrackVersionKeys(
    existing: seq<DependencyMapping>, received: set<DependencyMapping>, receivedLines: seq<string>,
    render: DependencyMapping -> string, inCi: bool, previous: string
  ): (r: VersionKeysRun)
    ensures r.receivedKeys == ReceivedKeysText(receivedLines)
    ensures r.KeysFailInCi? <==> inCi && MappingSet(existing) != received
    ensures r.KeysAccepted? && r.removedKeys.Some? <==> !inCi && HasRecordableChange(MappingSet(existing) - received)
    ensures r.KeysAccepted? && r.removedKeys.Some? ==>
      var added := RenderedLines(render, RemovalsInOrder(existing, received));
      |added| == |MappingSet(existing) - received|
      && r.removedKeys.value == RemovedKeysText(previous, added)
    ensures r.KeysAccepted? && r.removedKeys.Some? && AreEntryLines(RenderedLines(render, RemovalsInOrder(existing, received))) ==>
      && (forall line :: line in WithoutComments(Lines(previous)) ==> line in WithoutComments(Lines(r.removedKeys.value)))
      && (forall m :: m in MappingSet(existing) - received ==> render(m) in WithoutComments(Lines(r.removedKeys.value)))
  {
    var receivedKeys := ReceivedKeysText(receivedLines);
    match CheckVersionKeys(MappingSet(existing), received, inCi)
    case BreakingChangesInCi(_) => KeysFailInCi(receivedKeys)
    case NewKeysInCi(_) => KeysFailInCi(receivedKeys)
    case Accepted(_, rewrite) =>
      if !rewrite then KeysAccepted(receivedKeys, None)
      else
        var removals := RemovalsInOrder(existing, received);
        var added := RenderedLines(render, removals);
        var text := RemovedKeysText(previous, added);
        RemovalsInOrderCount(existing, received);
        assert AreEntryLines(added) ==> forall m :: m in removals ==> render(m) in WithoutComments(Lines(text)) by {
          if AreEntryLines(added) {
            RemovedKeysTextHoldsEach(previous, render, removals);
          }
        }
        KeysAccepted(receivedKeys, Some(text))
  }
}
