# refreshVersions: the versions-file model and the bundled-dependency tracker

refreshVersions is a Gradle plugin. It keeps dependency versions in a `versions.properties`
file and ships a catalogue of bundled dependency notations, such as `Kotlin.stdlib` or
`AndroidX.core`. This project models two text-handling parts of it in Dafny and proves what
they promise.

**The versions-file document model** (`VersionsPropertiesModel`)
- A document is made of:
  - the free text before the generated header;
  - the version of the tool that generated it;
  - an optional revision number for removals of dependency notations;
  - an ordered list of sections.
- A section is either a `Comment` block or a `VersionEntry`. A `VersionEntry` has leading comment lines, a key, a current version, available updates and trailing comment lines.
- The constructors enforce a grammar of comment prefixes:
  - `#` starts a comment;
  - `##` is reserved for metadata placed before a version, and may never start a trailing line;
  - `####` marks the generated header.
- Construction is modelled by smart constructors that return `Failure` for each `require` that would throw. The model also covers:
  - the metadata lines of an entry;
  - the failure comment;
  - the text of the generated header.

**The bundled-dependency tracker** (`BundledDependencies`, `RemovalsRevisionsHistory`)
- The test suite of the dependencies plugin keeps generated files in step with the catalogue:
  - the alias-rules file;
  - the validated dependency mapping;
  - the validated and received version keys;
  - the removed version keys.
- It also keeps a Markdown ledger, the removals-revisions history. The ledger records every dependency notation that disappears, under `## Revision N` headings.
- The model covers:
  - the `withoutComments` line filter;
  - the rules text: sorted, de-duplicated, separated by blank lines;
  - the two set-difference policies, for removed notations and for version keys;
  - the texts of the generated files;
  - `updateRemovalsRevisionsHistory`. It works out the line breaks that separate the new text, then reuses or opens a `## [WIP] Revision N+1` heading, where N comes from the last `## Revision ` line. Finally it writes one entry per removal: a short one for a rename, and a template with placeholders for a notation whose module is gone.
  - the version-keys check as a whole (`TrackVersionKeys`): it writes the received keys, applies the CI policy, and rewrites the removed-keys file with every breaking change;
  - the removed-notations check as a whole (`TrackRemovedNotations`): it compares the sets, orders the removals as the validated file lists them, appends to the ledger, and only then rewrites the validated-mapping file.
- The ledger update is imperative in the source:
  - a `StringBuilder` builds the text;
  - the text is appended to a file.

  It is modelled as a method that builds the text piece by piece, with the entries joined by a loop. The method is proved equal to the function `ExtraText`. The ledger file is a class, `LedgerFile`, whose `text` field the update method extends.

Modules, in dependency order:
- `Wrappers`: `Option`, `Result`.
- `Text`: the Kotlin text operations that the code relies on:
  - lines split on `'\n'`;
  - `startsWith` and `endsWith`;
  - `isBlank`;
  - `substringAfter` and `substringBefore`;
  - `joinToString`;
  - `Int.toString` and `String.toInt`;
  - `Int` arithmetic with wrap-around.
- `Sorting`: `sorted().distinct()` over texts.
- `VersionsPropertiesModel`.
- `BundledDependencies`.
- `RemovalsRevisionsHistory`.

The model follows the code literally where it is easy to misread:
- `metadataLines` does not trim the text after `"## "`.
- The entry for a true removal has seven lines: the struck-through name, five guidance lines and the id line.

## Model

Paths are relative to the repository root. `V` is `plugins/core/src/main/kotlin/de/fayard/refreshVersions/core/internal/versions/VersionsPropertiesModel.kt` and `B` is `plugins/dependencies/src/test/kotlin/de/fayard/refreshVersions/BundledDependenciesTest.kt`. The source column uses the full paths.

| member | source | states |
|---|---|---|
| VersionsPropertiesModel.IsCommentLine | plugins/core/src/main/kotlin/de/fayard/refreshVersions/core/internal/versions/VersionsPropertiesModel.kt:110-112 | Definition: `mustBeACommentLine` accepts exactly the lines that start with `#`. |
| VersionsPropertiesModel.Section.Valid | plugins/core/src/main/kotlin/de/fayard/refreshVersions/core/internal/versions/VersionsPropertiesModel.kt:22-55 | Definition: a `Comment` is valid when each of its non-blank lines is a comment; a `VersionEntry` when each non-blank leading line is a comment and each trailing line is a comment not starting with `##`. The smart constructors succeed exactly on valid sections. |
| VersionsPropertiesModel.VersionsProperties.Valid | plugins/core/src/main/kotlin/de/fayard/refreshVersions/core/internal/versions/VersionsPropertiesModel.kt:15-18 | Definition: the pre-header text is empty or ends with `'\n'`, its non-blank lines are comments, and every section is valid. |
| VersionsPropertiesModel.FirstNonComment | plugins/core/src/main/kotlin/de/fayard/refreshVersions/core/internal/versions/VersionsPropertiesModel.kt:24-26 | `forEach` stops at the first line that is neither blank nor a comment. That position exists exactly when some line breaks the rule. The line there is offending and every line before it passes. |
| VersionsPropertiesModel.FirstBadTrailing | plugins/core/src/main/kotlin/de/fayard/refreshVersions/core/internal/versions/VersionsPropertiesModel.kt:47-54 | The first trailing line that is not a comment or that starts with `##`. It exists exactly when the trailing lines are not all valid, and all lines before it pass. |
| VersionsPropertiesModel.NewComment | plugins/core/src/main/kotlin/de/fayard/refreshVersions/core/internal/versions/VersionsPropertiesModel.kt:22-27 | A `Comment` section is built if and only if every non-blank line starts with `#`. Otherwise the error names the first offending line. |
| VersionsPropertiesModel.NewVersionEntry | plugins/core/src/main/kotlin/de/fayard/refreshVersions/core/internal/versions/VersionsPropertiesModel.kt:43-55 | Succeeds if and only if every non-blank leading line is a comment and every trailing line, blank ones included, is a comment that does not start with `##`. Leading lines are checked first. A failure names the first offending line: a non-comment gives `NotACommentLine`, a `##` trailing line gives `DoubleHashTrailingLine`. |
| VersionsPropertiesModel.NewVersionsProperties | plugins/core/src/main/kotlin/de/fayard/refreshVersions/core/internal/versions/VersionsPropertiesModel.kt:15-18 | Succeeds if and only if the pre-header text is empty or ends with `'\n'` and all its non-blank lines start with `#`. The unterminated case fails first, with its own error. Any other failure is `NotACommentLine`, naming the first line that is neither blank nor a comment; every line before it passes. |
| VersionsPropertiesModel.LineMetadata | plugins/core/src/main/kotlin/de/fayard/refreshVersions/core/internal/versions/VersionsPropertiesModel.kt:38-40 | One leading line gives at most one metadata element. It is non-empty, and it exists only when the line contains `"## "`. |
| VersionsPropertiesModel.MetadataLines | plugins/core/src/main/kotlin/de/fayard/refreshVersions/core/internal/versions/VersionsPropertiesModel.kt:37-41 | No more metadata lines than leading lines, and none is empty (`ifEmpty { null }` followed by `mapNotNull`). |
| VersionsPropertiesModel.MetadataLinesAppend | plugins/core/src/main/kotlin/de/fayard/refreshVersions/core/internal/versions/VersionsPropertiesModel.kt:37-41 | Metadata is collected line by line, in order: the metadata of `a + b` is that of `a` followed by that of `b`. |
| VersionsPropertiesModel.MetadataOfLine | plugins/core/src/main/kotlin/de/fayard/refreshVersions/core/internal/versions/VersionsPropertiesModel.kt:39 | A line `p + "## " + t`, whose first `"## "` comes right after `p`, contributes exactly `t` (untrimmed) when `t` is non-empty. |
| VersionsPropertiesModel.MetadataOfMarkedLine | plugins/core/src/main/kotlin/de/fayard/refreshVersions/core/internal/versions/VersionsPropertiesModel.kt:39 | A line `"## " + t` with non-empty `t` contributes `t`. |
| VersionsPropertiesModel.MetadataOfPlainLine | plugins/core/src/main/kotlin/de/fayard/refreshVersions/core/internal/versions/VersionsPropertiesModel.kt:39 | A line without `"## "` contributes nothing, because the missing-delimiter value is empty. |
| VersionsPropertiesModel.MetadataOfEmptyMarker | plugins/core/src/main/kotlin/de/fayard/refreshVersions/core/internal/versions/VersionsPropertiesModel.kt:39 | A line whose first `"## "` ends it contributes nothing. |
| VersionsPropertiesModel.FailureComment | plugins/core/src/main/kotlin/de/fayard/refreshVersions/core/internal/versions/VersionsPropertiesModel.kt:74-78 | The failure comment starts with `"## "`, so it is a comment line. |
| VersionsPropertiesModel.FailureCommentAsLeadingLine | plugins/core/src/main/kotlin/de/fayard/refreshVersions/core/internal/versions/VersionsPropertiesModel.kt:74-78 | A failure comment is accepted as a leading line. Its metadata is `failed to check repo <url> Cause: <summary>`. |
| VersionsPropertiesModel.FailureCommentRejectedAsTrailingLine | plugins/core/src/main/kotlin/de/fayard/refreshVersions/core/internal/versions/VersionsPropertiesModel.kt:47-54 | A failure comment anywhere among the trailing lines makes the entry's construction fail. |
| VersionsPropertiesModel.VersionsPropertiesHeader | plugins/core/src/main/kotlin/de/fayard/refreshVersions/core/internal/versions/VersionsPropertiesModel.kt:82-100 | Definition: the title line, the generated-by line, the revision line when a revision is given, then the six closing lines without a final line break. Its lines are stated by `HeaderLines`. |
| VersionsPropertiesModel.HeaderTailLines | plugins/core/src/main/kotlin/de/fayard/refreshVersions/core/internal/versions/VersionsPropertiesModel.kt:88-100 | After the generated-by line come the revision line (exactly when a revision is given) and then the six fixed closing lines. |
| VersionsPropertiesModel.HeaderLines | plugins/core/src/main/kotlin/de/fayard/refreshVersions/core/internal/versions/VersionsPropertiesModel.kt:82-100 | For a version without line breaks, the header's lines are: the title; `generatedByLineStart + version`; `removalsRevisionLineStart + n` when a revision is given; the six fixed lines. The last line is the non-empty `suppress inspection` line, so there is no trailing newline. |
| VersionsPropertiesModel.HeaderLinesArePrefixed | plugins/core/src/main/kotlin/de/fayard/refreshVersions/core/internal/versions/VersionsPropertiesModel.kt:101-103 | The source's `assert` holds: every header line starts with `####` when the version has no line break. |
| VersionsPropertiesModel.HeaderLinesStartWithPrefix | plugins/core/src/main/kotlin/de/fayard/refreshVersions/core/internal/versions/VersionsPropertiesModel.kt:66-68 | The title, the line starts and each fixed closing line begin with `headerLinesPrefix`. |
| BundledDependencies.IsContentLine | plugins/dependencies/src/test/kotlin/de/fayard/refreshVersions/BundledDependenciesTest.kt:80 | Definition: a line that `withoutComments` keeps neither starts with `##` nor is blank. |
| BundledDependencies.WithoutComments | plugins/dependencies/src/test/kotlin/de/fayard/refreshVersions/BundledDependenciesTest.kt:79-80 | The result is no longer than the input. Every kept line is a content line. A line is kept if and only if it occurs in the input and neither starts with `##` nor is blank. |
| BundledDependencies.WithoutCommentsAppend | plugins/dependencies/src/test/kotlin/de/fayard/refreshVersions/BundledDependenciesTest.kt:79-80 | The filter keeps the original order and works line by line: it distributes over concatenation. |
| BundledDependencies.WithoutCommentsOfContent | plugins/dependencies/src/test/kotlin/de/fayard/refreshVersions/BundledDependenciesTest.kt:79-80 | Lines that are all content lines pass through unchanged. |
| BundledDependencies.WithoutCommentsOfComments | plugins/dependencies/src/test/kotlin/de/fayard/refreshVersions/BundledDependenciesTest.kt:79-80 | Lines that are all `##` comments or blank are all dropped. |
| BundledDependencies.WithoutCommentsIdempotent | plugins/dependencies/src/test/kotlin/de/fayard/refreshVersions/BundledDependenciesTest.kt:79-80 | Applying the filter twice equals applying it once. |
| Sorting.Insert | plugins/dependencies/src/test/kotlin/de/fayard/refreshVersions/BundledDependenciesTest.kt:88 | Insertion adds exactly one copy of the element (multiset) and keeps a sorted sequence sorted. |
| Sorting.Sort | plugins/dependencies/src/test/kotlin/de/fayard/refreshVersions/BundledDependenciesTest.kt:88 | `sorted()` returns a sorted permutation of its input. |
| Sorting.Distinct | plugins/dependencies/src/test/kotlin/de/fayard/refreshVersions/BundledDependenciesTest.kt:89 | `distinct()` keeps exactly the elements of its input, each once. |
| Sorting.DistinctSnoc | plugins/dependencies/src/test/kotlin/de/fayard/refreshVersions/BundledDependenciesTest.kt:89 | `distinct()` builds an insertion-ordered set: one more element is appended exactly when it has not been seen before. |
| Sorting.DistinctOfPrefix | plugins/dependencies/src/test/kotlin/de/fayard/refreshVersions/BundledDependenciesTest.kt:89 | First occurrences keep their input order: de-duplicating a prefix of the input gives a prefix of the result. |
| Sorting.DistinctOfUnique | plugins/dependencies/src/test/kotlin/de/fayard/refreshVersions/BundledDependenciesTest.kt:89 | An input without duplicates comes back unchanged, order included. |
| Sorting.DistinctOfSorted | plugins/dependencies/src/test/kotlin/de/fayard/refreshVersions/BundledDependenciesTest.kt:88-89 | De-duplicating a sorted sequence leaves it strictly sorted. |
| Sorting.StrictlySortedUnique | plugins/dependencies/src/test/kotlin/de/fayard/refreshVersions/BundledDependenciesTest.kt:88-89 | Two strictly sorted sequences with the same elements are equal. |
| Sorting.SortedDistinct | plugins/dependencies/src/test/kotlin/de/fayard/refreshVersions/BundledDependenciesTest.kt:88-89 | `sorted().distinct()` is strictly sorted and holds exactly the input's elements. |
| Sorting.SortedDistinctDependsOnElements | plugins/dependencies/src/test/kotlin/de/fayard/refreshVersions/BundledDependenciesTest.kt:88-89 | `sorted().distinct()` depends only on which elements occur. |
| BundledDependencies.RulesText | plugins/dependencies/src/test/kotlin/de/fayard/refreshVersions/BundledDependenciesTest.kt:87-90 | The rules text ends with `"\n"`, and every rule's text occurs in it. |
| BundledDependencies.RulesTextIgnoresOrder | plugins/dependencies/src/test/kotlin/de/fayard/refreshVersions/BundledDependenciesTest.kt:87-90 | Any reordering or repetition of the same rules gives identical text. |
| BundledDependencies.RegenerateRulesFile | plugins/dependencies/src/test/kotlin/de/fayard/refreshVersions/BundledDependenciesTest.kt:91 | The file is left alone if and only if it already holds the rules text. In every case its content afterwards is the rules text. |
| BundledDependencies.RegenerateRulesFileIdempotent | plugins/dependencies/src/test/kotlin/de/fayard/refreshVersions/BundledDependenciesTest.kt:91 | Regenerating right after a regeneration writes nothing, even when the rules come in another order. |
| BundledDependencies.TrackingFileText | plugins/dependencies/src/test/kotlin/de/fayard/refreshVersions/BundledDependenciesTest.kt:133-135 | Definition: `joinToString(separator = "\n", postfix = "\n", prefix = description)` with the description's lines ending in a line break. Reading it back is stated by `TrackingFileRoundTrip`. |
| BundledDependencies.TrackingFileRoundTrip | plugins/dependencies/src/test/kotlin/de/fayard/refreshVersions/BundledDependenciesTest.kt:133-135 | A generated file is a `##` description block, then single-line entries joined by `"\n"` with a final `"\n"`. Reading it back with `withoutComments` gives exactly the entries. |
| BundledDependencies.BodyReadsBack | plugins/dependencies/src/test/kotlin/de/fayard/refreshVersions/BundledDependenciesTest.kt:133-135 | The entries part alone reads back as the entries. |
| BundledDependencies.ValidateMappingDescriptionIsDescription | plugins/dependencies/src/test/kotlin/de/fayard/refreshVersions/BundledDependenciesTest.kt:52-56 | The validated-mapping description is a block of single `##` lines. |
| BundledDependencies.VersionKeysDescriptionIsDescription | plugins/dependencies/src/test/kotlin/de/fayard/refreshVersions/BundledDependenciesTest.kt:61-64 | The version-keys description is a block of single `##` lines. |
| BundledDependencies.RemoveKeysDescriptionIsDescription | plugins/dependencies/src/test/kotlin/de/fayard/refreshVersions/BundledDependenciesTest.kt:67-70 | The removed-keys description is a block of single `##` lines. |
| BundledDependencies.CheckRemovedNotations | plugins/dependencies/src/test/kotlin/de/fayard/refreshVersions/BundledDependenciesTest.kt:122-131 | Nothing happens if and only if the sets are equal. Any difference fails on CI. Otherwise the removals are exactly the existing mappings that were not received. |
| BundledDependencies.RemovalsInOrder | plugins/dependencies/src/test/kotlin/de/fayard/refreshVersions/BundledDependenciesTest.kt:117-119 | `existingMapping - receivedMapping` as Kotlin iterates it: exactly the mappings of the file that were not received, each once. |
| BundledDependencies.RemovalsInOrderOfPrefix | plugins/dependencies/src/test/kotlin/de/fayard/refreshVersions/BundledDependenciesTest.kt:117-127 | The removals follow the file's line order: `toSet()` keeps first occurrences in order and `minus` keeps its receiver's order. |
| BundledDependencies.RemovalsInOrderCount | plugins/dependencies/src/test/kotlin/de/fayard/refreshVersions/BundledDependenciesTest.kt:127 | The ordered removals have as many elements as the removal set, so every removal is listed exactly once. |
| BundledDependencies.NoRemovalsAgainstItself | plugins/dependencies/src/test/kotlin/de/fayard/refreshVersions/BundledDependenciesTest.kt:122-128 | Comparing a mapping with itself changes nothing and appends nothing to the ledger. |
| BundledDependencies.AdditionsDoNotTouchLedger | plugins/dependencies/src/test/kotlin/de/fayard/refreshVersions/BundledDependenciesTest.kt:127-131 | When mappings are only added, the removals are empty and the ledger is not updated. |
| BundledDependencies.RenameIsRemoval | plugins/dependencies/src/test/kotlin/de/fayard/refreshVersions/BundledDependenciesTest.kt:127-131 | Renaming a module's constant records the old notation as a removal, so the ledger is updated. |
| BundledDependencies.ValidatedMappingText | plugins/dependencies/src/test/kotlin/de/fayard/refreshVersions/BundledDependenciesTest.kt:133-135 | The rewritten validated-mapping file reads back, through `withoutComments`, as exactly the received mapping lines. |
| BundledDependencies.VersionConstantName | plugins/dependencies/src/test/kotlin/de/fayard/refreshVersions/BundledDependenciesTest.kt:205-206 | The name starts with `version.` and is followed by the key. Without a key it is `version.NO-RULE`. It equals `version.NO-RULE` if and only if there is no key or the key is `NO-RULE`. |
| BundledDependencies.ReceivedVersionKeys | plugins/dependencies/src/test/kotlin/de/fayard/refreshVersions/BundledDependenciesTest.kt:204-207 | Every mapping yields a copy whose constant name is its version constant name. Every result element has the module of some mapping and the version constant name of its own module. |
| BundledDependencies.ReceivedKeysText | plugins/dependencies/src/test/kotlin/de/fayard/refreshVersions/BundledDependenciesTest.kt:208-210 | The received-keys file reads back as exactly the received key lines. |
| BundledDependencies.CheckVersionKeys | plugins/dependencies/src/test/kotlin/de/fayard/refreshVersions/BundledDependenciesTest.kt:212-232 | On CI, a missing existing key fails first and a new key fails second. Elsewhere the run is accepted, with breaking changes = existing − received. The removed-keys file is rewritten if and only if some breaking change is not `version.NO-RULE`. |
| BundledDependencies.NoRuleChangesAreNotRecorded | plugins/dependencies/src/test/kotlin/de/fayard/refreshVersions/BundledDependenciesTest.kt:221-222 | Breaking changes that are all `NO-RULE` ones never rewrite the removed-keys file. |
| BundledDependencies.RemovedKeysText | plugins/dependencies/src/test/kotlin/de/fayard/refreshVersions/BundledDependenciesTest.kt:223-230 | The rewritten file reads back as its previous entries followed by exactly the lines it is given. `TrackVersionKeys` gives it every breaking change, `NO-RULE` ones included. |
| BundledDependencies.RemovedKeysAccumulate | plugins/dependencies/src/test/kotlin/de/fayard/refreshVersions/BundledDependenciesTest.kt:223-229 | Rewriting the removed-keys file never loses an entry it held. |
| BundledDependencies.TrackVersionKeys | plugins/dependencies/src/test/kotlin/de/fayard/refreshVersions/BundledDependenciesTest.kt:196-232 | The received-keys file is always written. The check fails if and only if it runs on CI and the key sets differ. The removed-keys file is rewritten if and only if, off CI, some removed key is not `NO-RULE`. It then holds its previous entries, then one line per breaking change in file order, `NO-RULE` ones included: as many lines as there are breaking changes, and every one of them reads back from the file. |
| RemovalsRevisionsHistory.LineBreaks | plugins/dependencies/src/test/kotlin/de/fayard/refreshVersions/BundledDependenciesTest.kt:146-151 | The breaks are `""`, `"\n"` or `"\n\n"`, for a ledger that ends in a blank line, in one line break or in neither, each if and only if. The ledger plus the breaks always ends with `"\n\n"`. |
| RemovalsRevisionsHistory.BeforeSeparator | plugins/dependencies/src/test/kotlin/de/fayard/refreshVersions/BundledDependenciesTest.kt:146-151 | A prefix of the ledger which, followed by `"\n\n"`, is the ledger with its breaks. |
| RemovalsRevisionsHistory.HasWipHeading | plugins/dependencies/src/test/kotlin/de/fayard/refreshVersions/BundledDependenciesTest.kt:143 | Definition: some line of the ledger starts with `## [WIP]`. |
| RemovalsRevisionsHistory.LastMatching | plugins/dependencies/src/test/kotlin/de/fayard/refreshVersions/BundledDependenciesTest.kt:154-156 | `last { … }`: the index of a matching line after which no line matches. It is absent if and only if no line matches. |
| RemovalsRevisionsHistory.LastMatchingAt | plugins/dependencies/src/test/kotlin/de/fayard/refreshVersions/BundledDependenciesTest.kt:154-156 | In `xs + [line] + ys`, the last match is `line` when it matches and nothing in `ys` does. |
| RemovalsRevisionsHistory.RevisionText | plugins/dependencies/src/test/kotlin/de/fayard/refreshVersions/BundledDependenciesTest.kt:156-159 | The revision text has no space, and for a `## Revision ` line it is the start of the text after that prefix, and it is followed there by a space unless it runs to the end of the line: everything up to the first space. |
| RemovalsRevisionsHistory.LastRevision | plugins/dependencies/src/test/kotlin/de/fayard/refreshVersions/BundledDependenciesTest.kt:154-160 | Fails with `NoRevisionHeading` if and only if no line starts with `## Revision `. On success, the number is the `toInt` of the last such line's text, taken after the heading start and up to the first space. Any other failure is `RevisionNotAnInteger` carrying the last heading's text, which `toInt` rejects. |
| RemovalsRevisionsHistory.RevisionTextOf | plugins/dependencies/src/test/kotlin/de/fayard/refreshVersions/BundledDependenciesTest.kt:156-160 | A heading `## Revision <n>`, optionally followed by a space and a comment, reads back as `n`. |
| RemovalsRevisionsHistory.LastRevisionOfLedger | plugins/dependencies/src/test/kotlin/de/fayard/refreshVersions/BundledDependenciesTest.kt:154-160 | A ledger whose last `## Revision ` line carries `n` (with or without a comment after a space) has last revision `n`. |
| RemovalsRevisionsHistory.LastRevisionOfSplit | plugins/dependencies/src/test/kotlin/de/fayard/refreshVersions/BundledDependenciesTest.kt:154-160 | The same, stated on the ledger's lines. |
| RemovalsRevisionsHistory.WipHeadingLine | plugins/dependencies/src/test/kotlin/de/fayard/refreshVersions/BundledDependenciesTest.kt:161 | The new heading is a single line that starts with `## [WIP]`. |
| Text.ParseInt32 | plugins/dependencies/src/test/kotlin/de/fayard/refreshVersions/BundledDependenciesTest.kt:160 | Success: a run of ASCII digits within `Int` range reads as its decimal value; `+` or `-` followed by digits reads as the signed value when it is within `Int` range, and gives `None` otherwise; a negative result needs a leading `-`. Failure (`NumberFormatException`): the empty text, a lone sign, a first character that is neither a digit nor a sign, any later non-digit, and a digit run beyond `Int.MAX_VALUE`. `ParseIntToDecimal` states the round trip with `Int.toString`. |
| Text.Inc | plugins/dependencies/src/test/kotlin/de/fayard/refreshVersions/BundledDependenciesTest.kt:161 | `lastRevision + 1` on Kotlin `Int`, with two's-complement wrap-around. |
| Text.ParseIntToDecimal | plugins/dependencies/src/test/kotlin/de/fayard/refreshVersions/BundledDependenciesTest.kt:160-161 | `toInt` reads back what the `Int` interpolation wrote, for every `Int`. |
| Text.IsBlank | plugins/dependencies/src/test/kotlin/de/fayard/refreshVersions/BundledDependenciesTest.kt:80 | Definition: `isBlank`, every character is JVM whitespace (the empty text included). |
| Text.Lines | plugins/core/src/main/kotlin/de/fayard/refreshVersions/core/internal/versions/VersionsPropertiesModel.kt:17 | `lineSequence` split at `'\n'`: there is always at least one line, and no line holds a line break. |
| Text.IndexOf | plugins/core/src/main/kotlin/de/fayard/refreshVersions/core/internal/versions/VersionsPropertiesModel.kt:39 | The first occurrence: the delimiter occurs there and nowhere before. When absent, it occurs nowhere. |
| Text.SubstringAfter | plugins/dependencies/src/test/kotlin/de/fayard/refreshVersions/BundledDependenciesTest.kt:156-157 | With no occurrence of the delimiter, the missing-delimiter value. Otherwise a suffix of the text that the delimiter immediately precedes, at the delimiter's first occurrence. |
| Text.SubstringBefore | plugins/dependencies/src/test/kotlin/de/fayard/refreshVersions/BundledDependenciesTest.kt:158-159 | A prefix of the text that does not contain the character, and is followed by it when it is shorter than the text: the text before the first occurrence, or all of it. |
| Text.SubstringAfterPrefix | plugins/dependencies/src/test/kotlin/de/fayard/refreshVersions/BundledDependenciesTest.kt:156-157 | On a line that starts with the delimiter, `substringAfter` drops exactly the delimiter. |
| Text.SubstringBeforeFirst | plugins/dependencies/src/test/kotlin/de/fayard/refreshVersions/BundledDependenciesTest.kt:158-159 | `substringBefore(' ')` stops at the first space. |
| Text.SubstringBeforeMissing | plugins/dependencies/src/test/kotlin/de/fayard/refreshVersions/BundledDependenciesTest.kt:158-159 | Without a space, `substringBefore(' ')` is the whole text. |
| Text.LinesPrefix | plugins/dependencies/src/test/kotlin/de/fayard/refreshVersions/BundledDependenciesTest.kt:186 | Appending text never shortens the ledger's lines: each old line is a prefix of the line at the same index afterwards. |
| RemovalsRevisionsHistory.StillExistsWithAnotherName | plugins/dependencies/src/test/kotlin/de/fayard/refreshVersions/BundledDependenciesTest.kt:170 | Definition: some received mapping has the removed mapping's module id. |
| RemovalsRevisionsHistory.EntryLines | plugins/dependencies/src/test/kotlin/de/fayard/refreshVersions/BundledDependenciesTest.kt:170-182 | An entry has 2 lines for a rename and 7 for a removal. It opens with `~~name~~` and closes with `id:[group:name]`. |
| RemovalsRevisionsHistory.Entry | plugins/dependencies/src/test/kotlin/de/fayard/refreshVersions/BundledDependenciesTest.kt:171-182 | The entry text starts with the struck-through line and a line break, and ends with a line break and the id line. |
| RemovalsRevisionsHistory.EntryReadsAsLines | plugins/dependencies/src/test/kotlin/de/fayard/refreshVersions/BundledDependenciesTest.kt:171-182 | When the names are single lines, the entry reads back as exactly its template lines. |
| RemovalsRevisionsHistory.RenameGetsShortEntry | plugins/dependencies/src/test/kotlin/de/fayard/refreshVersions/BundledDependenciesTest.kt:170-173 | A renamed constant is a removal whose entry is exactly the struck-through line and the id line. |
| RemovalsRevisionsHistory.RemovalGetsGuidanceEntry | plugins/dependencies/src/test/kotlin/de/fayard/refreshVersions/BundledDependenciesTest.kt:174-182 | A module no longer bundled gets: the struck-through line, the guidance lines (ending in the `moved:[<insert …>]` placeholder), and the id line. |
| RemovalsRevisionsHistory.EntriesText | plugins/dependencies/src/test/kotlin/de/fayard/refreshVersions/BundledDependenciesTest.kt:164-167 | The entries text ends with `"\n"`. |
| Text.Join | plugins/dependencies/src/test/kotlin/de/fayard/refreshVersions/BundledDependenciesTest.kt:164-167 | Definition: `joinToString(separator)`, the parts with the separator between each two. `JoinSnoc` states that it is built element by element and `JoinHasParts` that each part occurs in it. |
| Text.JoinSnoc | plugins/dependencies/src/test/kotlin/de/fayard/refreshVersions/BundledDependenciesTest.kt:164-167 | Joining one more part appends the separator and the part. |
| Text.JoinHasParts | plugins/dependencies/src/test/kotlin/de/fayard/refreshVersions/BundledDependenciesTest.kt:87-90 | Every part occurs in the joined text. |
| Text.LinesOfJoin | plugins/dependencies/src/test/kotlin/de/fayard/refreshVersions/BundledDependenciesTest.kt:133-135 | Single-line texts joined by `'\n'` read back as exactly those lines. |
| Text.LinesOfParagraphs | plugins/dependencies/src/test/kotlin/de/fayard/refreshVersions/BundledDependenciesTest.kt:164-167 | Texts joined by `"\n\n"` and ended by `"\n"` read as their own lines, one blank line between each two, then a final empty line. |
| RemovalsRevisionsHistory.EntriesTextLines | plugins/dependencies/src/test/kotlin/de/fayard/refreshVersions/BundledDependenciesTest.kt:164-184 | The entries text holds exactly one entry per removal, in order, each as its template lines, separated by one blank line and ended by a line break. |
| RemovalsRevisionsHistory.NewHeading | plugins/dependencies/src/test/kotlin/de/fayard/refreshVersions/BundledDependenciesTest.kt:153-163 | No heading under an open WIP revision. Otherwise the heading after the last revision, or the failure of reading that revision. |
| RemovalsRevisionsHistory.ExtraText | plugins/dependencies/src/test/kotlin/de/fayard/refreshVersions/BundledDependenciesTest.kt:144-185 | Fails if and only if no WIP heading is open and the last revision cannot be read, with that error. Otherwise the text is the breaks, the new heading if any, then the entries. |
| RemovalsRevisionsHistory.RecordedLedger | plugins/dependencies/src/test/kotlin/de/fayard/refreshVersions/BundledDependenciesTest.kt:184-186 | The appended ledger is: the old text before its separator, exactly one blank line, the heading if any, then the entries. |
| RemovalsRevisionsHistory.RecordedLedgerLines | plugins/dependencies/src/test/kotlin/de/fayard/refreshVersions/BundledDependenciesTest.kt:146-186 | The appended ledger's lines: the old ones before the separator, one empty line, then the lines of the new text. |
| RemovalsRevisionsHistory.NewRevisionLedgerLines | plugins/dependencies/src/test/kotlin/de/fayard/refreshVersions/BundledDependenciesTest.kt:146-186 | Without an open revision and with a readable last `## Revision N` line, recording succeeds. The ledger's lines become: the lines before the separator, one blank line, `## [WIP] Revision N+1`, one blank line, the entries' template lines separated by blank lines, and a final line break. |
| RemovalsRevisionsHistory.OpenRevisionLedgerLines | plugins/dependencies/src/test/kotlin/de/fayard/refreshVersions/BundledDependenciesTest.kt:146-186 | Under an open revision, recording succeeds and adds one blank line and then the entries, with no heading. |
| RemovalsRevisionsHistory.RecordedLedgerHasWipHeading | plugins/dependencies/src/test/kotlin/de/fayard/refreshVersions/BundledDependenciesTest.kt:143-163 | After a batch is recorded, the ledger has an open WIP revision. |
| RemovalsRevisionsHistory.NewHeadingIsWip | plugins/dependencies/src/test/kotlin/de/fayard/refreshVersions/BundledDependenciesTest.kt:153-163 | Without an open revision, the heading that is added is itself a line marked `## [WIP]`. |
| RemovalsRevisionsHistory.NoNewHeadingUnderWip | plugins/dependencies/src/test/kotlin/de/fayard/refreshVersions/BundledDependenciesTest.kt:143-153 | Under an open WIP heading, the appended text is only the breaks and the entries. |
| RemovalsRevisionsHistory.SecondBatchDoesNotBump | plugins/dependencies/src/test/kotlin/de/fayard/refreshVersions/BundledDependenciesTest.kt:143-163 | A second batch recorded before the revision is finalised adds no heading, so the revision number is not bumped twice. |
| RemovalsRevisionsHistory.JoinEntries | plugins/dependencies/src/test/kotlin/de/fayard/refreshVersions/BundledDependenciesTest.kt:164-184 | The element-by-element `joinToString` loop produces exactly the entries text. |
| RemovalsRevisionsHistory.BuildExtraText | plugins/dependencies/src/test/kotlin/de/fayard/refreshVersions/BundledDependenciesTest.kt:144-185 | The piece-by-piece `buildString` produces exactly `ExtraText`, failure included. |
| RemovalsRevisionsHistory.LedgerFile.constructor | plugins/dependencies/src/test/kotlin/de/fayard/refreshVersions/BundledDependenciesTest.kt:142 | The ledger file holds the given text. |
| RemovalsRevisionsHistory.LedgerFile.UpdateRemovalsRevisionsHistory | plugins/dependencies/src/test/kotlin/de/fayard/refreshVersions/BundledDependenciesTest.kt:138-187 | On success the new text is the old text plus `ExtraText`. On failure the file is unchanged and the error is returned. In every case the old text is a prefix of the new one (append-only). |
| RemovalsRevisionsHistory.TrackRemovedNotations | plugins/dependencies/src/test/kotlin/de/fayard/refreshVersions/BundledDependenciesTest.kt:114-135 | Equal mapping sets write nothing; any difference fails on CI. Otherwise, with no removal the ledger is unchanged; with removals the ledger gets `ExtraText` for the removals in file order, one per removal, and grows. If reading the last revision fails, nothing is written: the validated-mapping file is rewritten only after the ledger update succeeded. |

## Left out

- File I/O (`readText`, `writeText`, `appendText`, `useLines`, `copyTo`, `deleteOnExit`, `listFiles`). File contents are string parameters and results. The `copyTo` and `deleteOnExit` of the version-keys check (B:233-234) have no counterpart.
- The check that bundled modules exist in the standard repositories (B:255-307). It relies on network lookups, `runBlocking`/`launch` concurrency and an OkHttp client (B:309-319). Its `dependencyMappingDescription` file (B:73-76) and its text are not modelled.
- JUnit orchestration: `@Order`, `@BeforeAll`, the `TestAbortedException` gating and the mutable pass flag (B:94-100, 249-253, 306). `isInCi()` is a boolean parameter of the two diff policies.
- The test that lists the rules directory (B:103-110), the test that parses the ledger (B:189-192), and the test of the `dependencies` package (B:237-247). The first two only call code outside this model. The third is a plain check over foreign data.
- Code from other files:
  - `DependencyMapping.fromLine` and `toString`: the rendered lines are parameters.
  - `getArtifactNameToConstantMapping`: a set parameter.
  - `ArtifactVersionKeyReader.readVersionKey`: a function parameter.
  - `AbstractDependencyGroup.ALL_RULES` with `text()` and `compareTo`: rules are their texts.
  - `parseRemovedDependencyNotations`.
  - `oneLineSummary`: a string parameter.
- BundledDependencies.RulesText: the rules are sorted by their text, compared character by character. The source sorts rule objects with their own `compareTo`, which is not part of this model.
- Parsing and serialising of the versions file, which live in other files. No round trip between them is stated.
- The `lazy` caching of `metadataLines`, and Kotlin's `expect`/`actual`. `MetadataLines` is a plain function.
- The unused constants `availableComment`, `unusedEntryComment`, `isUsingVersionRejectionHeader` and `versionKeysPrefixes` (V:70-80, 105-108) are literals only.
- Lines are split on `'\n'` only. Kotlin's `lineSequence` also splits on `"\r\n"` and `"\r"`.
- VersionsPropertiesModel.VersionsPropertiesHeader: returns the header for every version. The source ends with an `assert` that every header line starts with `####` (V:101-103). That `assert` runs only with JVM assertions enabled (`-ea`), and then it throws for a version that holds a line break. The model does not throw there. `HeaderLinesArePrefixed` proves that the `assert` holds for every version without a line break.
- Text.ParseInt32: accepts ASCII digits only. `String.toInt` also accepts other Unicode decimal digits.
- Iteration order of the sets: `toSet()` keeps the file's line order and `minus` keeps its receiver's order, so removals are visited in the order of the validated-mapping file. `RemovalsInOrder` computes that order from the file's mappings. The ledger functions take it as a sequence parameter, and `TrackRemovedNotations` supplies it. The received mapping is a set parameter, and its rendered lines are a parameter, in the order of `getArtifactNameToConstantMapping`.
- RemovalsRevisionsHistory.EntryReadsAsLines: assumes names without line breaks. `trimIndent` would re-indent a template whose interpolated names contain line breaks, and that case is not modelled.
