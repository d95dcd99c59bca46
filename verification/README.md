# Verified models of the maintenance scripts

This Dafny 4.11 project models the scripts of the repository that decide something and proves what
they promise. `dafny verify dfyconfig.toml` checks all of it; no module depends on a library.

Code that the scripts run step by step - loops over lists and dicts, visitors with fields, updates of
tables - is written as methods and classes, and proved against specification functions; what the
design promises is proved about those as lemmas.

| modules | what they model |
|---|---|
| `Printf`, `PyCalls`, `FStringLoggers`, `FormatSpecs` | translating f-strings in logger calls to printf formats |
| `LoggerKwargs` | moving keyword arguments of logger calls into the format |
| `Splice`, `FStringSplice`, `SharedLine`, `KwargsSplice` | splicing many rewritten calls into a source file |
| `IgnoreComments`, `CommentPattern` | merging a code into `# type: ignore[...]` comments |
| `SnapshotDiff`, `SnapshotOrder`, `SnapshotMetric`, `ModelSnapshot` | building, validating and diffing schema snapshots |
| `CapabilityDeps`, `DependencyCap`, `DependencyRules`, `DependencyPromises` | inferring, capping and inserting capability dependencies, and what the seeder promises of them |
| `LlmGuard`, `GuardSyntax`, `GuardDocumentation` | the static check for unguarded router results, and its documented rule |
| `TemplateGallery`, `GalleryRows`, `GalleryRuns` | reloading and seeding built-in templates |
| `BackfillWorkspace`, `BackfillRule` | giving every row a workspace |
| `VersionedCatalog`, `CatalogRuns` | versioned upserts of tools and agent templates |
| `Seqs`, `Sorting`, `Text`, `Wrappers` | what they share |

## Where the code and its documentation differ

The models follow the code; these differences are results proved here.

- `convert_fstring_loggers.py` says it preserves `!r` and `!a`. Its codes 2 and 3 never occur in
  CPython's syntax tree, where both fields come out as `%s` (`FStringLoggers.MessageKeptUnderCPython`,
  `ReprIsLost`). It also changes a message that has a percent sign but no field, because logging
  does not format without arguments (`MessageKeptIff`). And it promises to skip specs such as `,` and
  `>10.2e`, but converts them, to formats that raise (`PromisedSkipsConverted`, `ReadBackIff`).
- `convert_logger_kwargs.py` shows `"event: key=%s"`; the code writes no colon. A format without
  positional values that contains a percent sign - even `%%` - comes out changed or not at all
  (`LoggerKwargs.UnformattedMessageExtendedIff`).
- Both splicers are meant to keep what surrounds a call. One doubles the text before a call that also
  has text behind it, the other drops text before a call on its line; the exact conditions are
  `FStringSplice.SplicingConservesIff` and `KwargsSplice.KwSplicingConservesIff`, lines that fail are
  `FStringSplice.MiddleCallDoubles` and `KwargsSplice.LaterCallDropsText`.
- `convert_fstring_loggers.py` sorts calls by column too, so that several can share a line. Each
  promotes what is behind it to a new line, behind the text before it, so with three calls on a line
  the first always comes back, in its old form (`SharedLine.SharedConservesIff`, `OldCallComesBack`).
- `apply_arg_type_ignores.py` is not idempotent on a line with an ignore bracket left open
  (`IgnoreComments.IdempotentIff`, `CutOffCommentIsNotStable`).
- `guard_llm_success.py` documents `normalize_llm_result(r)` and `if not r` as guards, but looks for the
  variable in the function position only, so neither guards anything: even the recommended pattern is
  reported (`GuardDocumentation.RecommendedPatternReported`, `NoneTestIgnored`). It documents
  `json.loads(r)` as a forbidden read, and never reports it (`LoadMissed`); it reports reads of
  `choices` and `message`, which are not documented (`OtherKeyReported`). `MissedIff`, `ExtraIff` and
  `SameReadsIff` say exactly where the two differ.
- `seed_capability_deps.py` promises bidirectional dependencies for shared tools. The cap keeps them
  all if and only if no agent shares tools with more than ten others
  (`DependencyPromises.SharersJoinedIff`); twelve agents with the same two tools are too many
  (`TwelveSharersLose`). With optional edges counted the bound is ten of any kind
  (`KeptBothWaysIff`), and beyond it one direction alone can stay (`OneWayKept`).
- The same file promises idempotence. A second run can see the agents in another order, keep other
  edges and insert them. Over all orders of the edges it inserts nothing if and only if each agent is
  to have at most ten dependencies, or exactly ten preferred ones (`DependencyPromises.SecondRunIff`,
  `KeepsNoOtherIff`).
- The number of diff lines is a metric only where the middle snapshot has every table that the outer
  two share (`SnapshotMetric.TriangleIff`).
- The gallery equals the file after a reload only if the file and the built-in rows repeat no name
  (`GalleryRuns.MatchesIff`): a second row with a name is out of the reload's sight. The consulting
  seeder does not see rows it has just added, because the session does not flush before queries
  (backend/app/database.py:25-30), so it can add two rows with one name (`ConsultingUniqueIff`). Its
  templates are built in, so the next reload deletes those whose name the file lacks, with their usage
  count (`ConsultedSurvivesIff`).
- An agent template whose version is NULL or 0 gets wrongly numbered snapshots, NULL for ever
  (`CatalogRuns.NullStays`, `RunLeadsUpIff`); for tools a NULL version raises and undoes the import
  (`VersionedCatalog.ToolsRaiseIff`). Rows that were there before any import lack their first
  snapshots for good; how many are missing never changes (`CatalogRuns.RunKeeps`).

## Model

| member | source | states |
|---|---|---|
| FStringLoggers.EmittedFormatIsReadBack | scripts/convert_fstring_loggers.py:89-117 | for every segment sequence with printf-shaped specs, tokenising the emitted format gives back every literal with its percent signs undone and every field as one directive with its own spec, in order, and there are as many directives as arguments |
| FStringLoggers.EmittedFormatRenders | scripts/convert_fstring_loggers.py:89-117 | formatting the emitted format with the emitted arguments prints field by field what each directive makes of its own value, literals unescaped |
| FStringLoggers.ReadBackIff | scripts/convert_fstring_loggers.py:89-117 | whatever the converter emits is read back as its segments if and only if every spec is printf-shaped |
| FStringLoggers.PromisedSkipsConverted | scripts/convert_fstring_loggers.py:27-31 | the two specs that are promised to be skipped are converted, to formats that raise |
| FStringLoggers.AlignmentRaises | scripts/convert_fstring_loggers.py:27-31 | so is every spec that starts with a separator, alignment or fill character that no directive can start with |
| FStringLoggers.FieldsKeptMessageKept | scripts/convert_fstring_loggers.py:89-117 | with format specs, where each directive prints its own value as the field did, the message logged is the f-string's text if and only if it has a field or no percent sign |
| FStringLoggers.MessageKeptIff | scripts/convert_fstring_loggers.py:61-117 | without specs, the logged message is the f-string's own text for all values if and only if it has a field or no percent sign, and the conversion codes mean what `_conv_char` takes them to mean |
| FStringLoggers.MessageKeptUnderCPython | scripts/convert_fstring_loggers.py:61-69 | under the codes of CPython's syntax tree (-1, 115, 114, 97) the message is kept for all values if and only if it has a field or no percent sign and no field is `!r` or `!a` |
| FStringLoggers.ReprIsLost | scripts/convert_fstring_loggers.py:14-16 | the conversions that the module says it preserves are not: a concrete `!r` field loses its quotes |
| FStringLoggers.TrailingArgumentsFail | scripts/convert_fstring_loggers.py:227-231 | behind further positional arguments the converted call never formats |
| FStringLoggers.BodyGrammar | scripts/convert_fstring_loggers.py:95-98 | the scanner of directives accepts between the percent sign and the letter exactly flags, width, optional precision and at most one length modifier |
| FStringLoggers.FlattenSpec | scripts/convert_fstring_loggers.py:72-86 | the loop flattens a spec to its text, or fails exactly on a nested field |
| FStringLoggers.JoinedStrToPrintf | scripts/convert_fstring_loggers.py:101-117 | the loop computes the format and argument list of the specification, or the error of the first unsupported child |
| FormatSpecs.BodyIsPrintf | scripts/convert_fstring_loggers.py:95-98 | these bodies are exactly flags from "-+ #0", digits, a dot with digits, and h, l or L, character by character |
| FormatSpecs.OwnLetterKept | scripts/convert_fstring_loggers.py:58-98 | a spec that ends in one of the letters diouxXeEfFgGcrsa is emitted as it is, whatever the conversion code, and read back as a directive with that letter |
| FormatSpecs.LetterAdded | scripts/convert_fstring_loggers.py:61-98 | a spec that ends in none of these letters and not in a percent sign gets one: r for code 2, a for code 3, s for every other code and for none |
| FormatSpecs.PercentKept | scripts/convert_fstring_loggers.py:95-96 | a spec that ends in a percent sign is emitted as it is |
| FormatSpecs.PlainField | scripts/convert_fstring_loggers.py:93-94 | a field without spec is emitted as a percent sign and the letter of its code |
| FormatSpecs.TwoDecimals | scripts/convert_fstring_loggers.py:95-96 | `.2f` is emitted as `%.2f` |
| FormatSpecs.LetterRead | scripts/convert_fstring_loggers.py:58-58 | behind a percent sign alone exactly these letters, and the sign itself, are read as a directive or literal |
| FormatSpecs.PartsJoined | scripts/convert_fstring_loggers.py:80-86 | the text parts of a spec are joined in order, and a nested field anywhere is an error |
| FormatSpecs.PercentDoubled | scripts/convert_fstring_loggers.py:108-109 | literal text is kept but for its percent signs, each of which is doubled |
| Printf.TokeniseConcat | scripts/convert_fstring_loggers.py:117 | a format that ends cleanly tokenises independently of what is appended to it |
| Printf.RenderNeedsAllArgs | scripts/convert_fstring_loggers.py:89-117 | formatting succeeds only on exactly as many values as directives |
| LoggerKwargs.ConvertCall | scripts/convert_logger_kwargs.py:84-140 | the call is converted exactly when it has a literal format, no spread and a keyword to move, and then to the specified call; else None |
| LoggerKwargs.SplitKeywords | scripts/convert_logger_kwargs.py:103-114 | the loop separates special from movable keywords in order, and gives up exactly on a spread |
| LoggerKwargs.ConversionKeepsExpressions | scripts/convert_logger_kwargs.py:99-140 | every argument and keyword expression is kept exactly once, positional ones stay in front, special keywords stay keywords, and a second conversion returns None |
| LoggerKwargs.ConvertibleIff | scripts/convert_logger_kwargs.py:92-117 | a call is converted if and only if its format is a literal, nothing is spread, and some keyword is none of exc_info, stack_info, stacklevel and extra |
| LoggerKwargs.OneMoreStays | scripts/convert_logger_kwargs.py:32-32 | one of these four keywords more stays a keyword behind the others; all else is as without it |
| LoggerKwargs.OneMoreMoves | scripts/convert_logger_kwargs.py:119-136 | any other keyword more adds " name=%s" to the format and its value to the arguments; function, earlier arguments and kept keywords are as without it |
| LoggerKwargs.MessageExtended | scripts/convert_logger_kwargs.py:119-129 | with positional values, a message that formatted comes out followed by " key=value" for each moved keyword in order |
| LoggerKwargs.UnformattedMessageExtendedIff | scripts/convert_logger_kwargs.py:119-129 | without positional values the same holds if and only if the format contains no percent sign |
| LoggerKwargs.PercentSpoils | scripts/convert_logger_kwargs.py:119-123 | a percent sign in a format that was never formatted costs a directive too many or a literal |
| Splice.ReplaceLast | scripts/convert_fstring_loggers.py:211-212 | replacing the last patch in place and passing forward over the rest equals one forward pass over all patches |
| Splice.SortIsLayout | scripts/convert_logger_kwargs.py:210-211 | sorting targets found in any order gives their order in the file when they share no line |
| Splice.ForwardInk | scripts/convert_fstring_loggers.py:141-189 | the visible text of a pass is compared patch by patch, up to the exact number of surplus characters |
| FStringSplice.SourceFile.ReplaceCall | scripts/convert_fstring_loggers.py:141-189 | the in-place edit makes exactly one line-range replacement, in the single-line and the multi-line branch |
| FStringSplice.SourceFile.ConvertFile | scripts/convert_fstring_loggers.py:203-235 | the descending in-place loop over targets found in any order leaves what replacing them one by one from the last up leaves, shared lines included; for targets on lines of their own, one forward pass over the original; it counts converted and skipped |
| FStringSplice.LineReplaced | scripts/convert_fstring_loggers.py:154-176 | the exact lines that replacing a call on one line leaves, with and without visible text behind it |
| FStringSplice.LinesReplaced | scripts/convert_fstring_loggers.py:178-189 | the exact lines that replacing a call over several lines leaves, the newline of the new line included |
| FStringSplice.NewlineKept | scripts/convert_fstring_loggers.py:178-189 | a concrete call over two lines in front of another line: the two do not run together |
| FStringSplice.NoLineRunsOn | scripts/convert_fstring_loggers.py:141-235 | for calls that lie within their lines, the text written splits into exactly the lines the loop leaves, so no line runs into the next |
| FStringSplice.ApartFit | scripts/convert_fstring_loggers.py:211-233 | for calls on lines of their own it is enough that they lie within the original lines |
| FStringSplice.ConvertibleAre | scripts/convert_fstring_loggers.py:219-233 | the calls counted as converted are those with a new text |
| FStringSplice.ApartDescends | scripts/convert_fstring_loggers.py:211-233 | for calls on lines of their own, replacing from the last up never leaves the list and equals one forward pass over the original lines |
| FStringSplice.OneCallLess | scripts/convert_fstring_loggers.py:219-233 | one turn of the loop leaves earlier targets valid and the remaining forward pass unchanged |
| FStringSplice.SplicingConservesIff | scripts/convert_fstring_loggers.py:141-189 | over any number of targets no visible text outside the calls is dropped, doubled or reordered if and only if no replaced call has visible text on both sides |
| FStringSplice.MiddleCallDoubles | scripts/convert_fstring_loggers.py:154-167 | a concrete line with text on both sides of its call: the text before comes twice |
| SharedLine.SharedLineResult | scripts/convert_fstring_loggers.py:141-189 | calls side by side on one line, in any order of discovery, leave exactly this: the line with the first call replaced, then one promoted line for each call with text behind it when its turn comes |
| SharedLine.SharedConservesIff | scripts/convert_fstring_loggers.py:141-189 | their visible text is what exchanging each call for its text leaves if and only if nothing visible stands before a call that has text behind it when its turn comes |
| SharedLine.OldCallComesBack | scripts/convert_fstring_loggers.py:141-189 | for two calls that is so if and only if nothing visible stands before the first or behind the second; for three or more never |
| SharedLine.SkippedDoNotMatter | scripts/convert_fstring_loggers.py:219-233 | calls that are skipped have no effect on what the others leave |
| KwargsSplice.NewLines | scripts/convert_logger_kwargs.py:154-181 | the loop builds the specified lines of one call: indented text, continuation lines, promoted trailing text |
| KwargsSplice.ReplaceCall | scripts/convert_logger_kwargs.py:143-182 | splitting, replacing and joining is one line-range replacement in the text |
| KwargsSplice.TransformSource | scripts/convert_logger_kwargs.py:192-215 | the bottom-up loop that joins and splits the whole source after each replacement equals one simultaneous replacement of all calls |
| KwargsSplice.CallReplaced | scripts/convert_logger_kwargs.py:154-182 | replacing a call leaves exactly its new lines, the first with the indent of the line on which the call starts, further ones four columns deeper, and then what stood behind the call, indented |
| KwargsSplice.RenderedForward | scripts/convert_logger_kwargs.py:208-215 | over any number of calls on lines of their own the result is the file with every call written out like that |
| KwargsSplice.IndentKept | scripts/convert_logger_kwargs.py:155-167 | a concrete indented call keeps its indent |
| KwargsSplice.EveryTextReads | scripts/convert_logger_kwargs.py:160-161 | every new text but the empty one has lines of its own, so the above is about all of them |
| KwargsSplice.RejoinedForward | scripts/convert_logger_kwargs.py:148-182 | joining and splitting again, with the second newline that promoted text brings, does not disturb the lines in front or what is made of them |
| KwargsSplice.KwSplicingConservesIff | scripts/convert_logger_kwargs.py:154-182 | visible text is conserved if and only if every call is the first thing on its line; otherwise fewer visible characters remain |
| KwargsSplice.LaterCallDropsText | scripts/convert_logger_kwargs.py:154-181 | a concrete line with text before its call: that text is gone |
| IgnoreComments.PrintedIsRead | scripts/apply_arg_type_ignores.py:26-49 | parsing a printed comment returns exactly the codes printed |
| CommentPattern.MatchIff | scripts/apply_arg_type_ignores.py:26-28 | the pattern matches exactly a hash, "type:", "ignore" and optional non-empty brackets with whitespace in between, and yields the text in the brackets, or none |
| Text.SpacesAre | scripts/apply_arg_type_ignores.py:26-28 | whitespace is these twelve characters |
| CommentPattern.FindIff | scripts/apply_arg_type_ignores.py:64-64 | the match found is the leftmost comment that reaches to the end of the line |
| CommentPattern.EntriesAre | scripts/apply_arg_type_ignores.py:66-68 | the codes read are what stands between commas, without the whitespace around it |
| CommentPattern.CommentMerged | scripts/apply_arg_type_ignores.py:52-76 | a line whose comment has the target stays as it is; otherwise the comment, with brackets or bare, gives way to the old codes and the target, sorted, with comma and space in between |
| CommentPattern.CommentAppended | scripts/apply_arg_type_ignores.py:72-76 | a line without a comment gets one with the target behind two spaces |
| CommentPattern.ContinuedStays | scripts/apply_arg_type_ignores.py:61-62 | a line whose last visible character is a backslash stays as it is |
| CommentPattern.StaysIff | scripts/apply_arg_type_ignores.py:52-76 | a line stays as it is if and only if it is continued or its comment has the target |
| CommentPattern.BareMerged | scripts/apply_arg_type_ignores.py:10-10 | a bare `# type: ignore` becomes one with the target alone |
| CommentPattern.OneCodeMerged | scripts/apply_arg_type_ignores.py:10-11 | a single code stays alone if it is the target, and otherwise stands before or behind it as sorted |
| IgnoreComments.ProcessLineAddsOnlyTarget | scripts/apply_arg_type_ignores.py:52-76 | a changed line keeps the text before its comment and its comment reads as the old codes and the target, which was not among them |
| IgnoreComments.MatchInFront | scripts/apply_arg_type_ignores.py:26-28 | text in front of a printed comment matches the pattern only by an opened bracket that the comment closes |
| IgnoreComments.IdempotentIff | scripts/apply_arg_type_ignores.py:52-76 | processing twice equals processing once if and only if the line is stable: it does not change, or has no unclosed ignore bracket before the comment, or that bracket swallows the target as a code |
| IgnoreComments.CutOffCommentIsNotStable | scripts/apply_arg_type_ignores.py:52-76 | a comment cut off behind its bracket is processed differently the second time |
| IgnoreComments.ProcessLines | scripts/apply_arg_type_ignores.py:79-98 | for every iteration order only listed lines change, each to its processed form; applied is the number of changed lines and applied + skipped the number listed |
| IgnoreComments.ProcessFile | scripts/apply_arg_type_ignores.py:79-109 | the file is written exactly when a line changed and the result parses; else it stays, with everything counted as skipped |
| IgnoreComments.SplitProcessed | scripts/apply_arg_type_ignores.py:82-108 | the text written splits into exactly the processed lines |
| IgnoreComments.SecondRunApplies | scripts/apply_arg_type_ignores.py:79-109 | a second run applies exactly the listed lines that are not stable |
| SnapshotDiff.ValidateUnique | backend/scripts/snapshot_diff.py:38-44 | accepts exactly the lists without repetition |
| SnapshotDiff.ValidateTable | backend/scripts/snapshot_diff.py:105-135 | accepts exactly the tables with a name and without repeated indexes, constraint columns, constraints and foreign keys |
| SnapshotDiff.TableMap | backend/scripts/snapshot_diff.py:138-149 | returns the tables by name exactly for valid snapshots, and fails for all others |
| SnapshotDiff.DiffTables | backend/scripts/snapshot_diff.py:174-255 | every difference in tables, columns, types, indexes, unique constraints and foreign keys has exactly one line, as it is, and there are no other lines; they come table names first, then table by table in sorted order |
| SnapshotOrder.OutputIsTheOnlyOne | backend/scripts/snapshot_diff.py:174-255 | the lines are the only list with exactly one line for each difference in this order: tables added, tables removed, then table by table columns added, removed, changed, and each family of labels added and removed, each part sorted |
| SnapshotOrder.OutputInOrder | backend/scripts/snapshot_diff.py:178-255 | any two lines stand in that order |
| SnapshotDiff.CapAccounts | backend/scripts/snapshot_diff.py:160-165 | at most 50 lines are shown, shown plus hidden is the total, the shown ones are the first, and nothing is shown only when there is nothing |
| SnapshotDiff.CapShows | backend/scripts/snapshot_diff.py:160-165 | up to 50 lines are all shown; of more, exactly the first 49 and then the number of the others |
| SnapshotDiff.DiffSnapshots | backend/scripts/snapshot_diff.py:168-257 | fails exactly on an invalid snapshot; otherwise the capped lines of a complete diff |
| SnapshotDiff.ExitCode | backend/scripts/snapshot_diff.py:285-299 | 2 exactly on an invalid snapshot, 0 exactly when nothing differs, else 1 |
| SnapshotMetric.EmptyDiffIff | backend/scripts/snapshot_diff.py:168-299 | the diff of two valid snapshots is empty if and only if they agree up to the order of their lists |
| SnapshotMetric.Symmetric | backend/scripts/snapshot_diff.py:178-255 | swapping the snapshots reports the same differences, each the other way round |
| SnapshotMetric.Triangle | backend/scripts/snapshot_diff.py:174-257 | a detour over a snapshot that has every table the ends share has no fewer lines |
| SnapshotMetric.TriangleIff | backend/scripts/snapshot_diff.py:174-257 | the number of lines obeys the triangle inequality for all snapshots with given table names if and only if the middle one has every table that the outer two share |
| SnapshotMetric.PatchReconstructs | backend/scripts/snapshot_diff.py:168-257 | applying the uncapped lines to what the old snapshot says gives the new table names and, for tables in both, exactly the new columns with types, indexes, constraints and foreign keys |
| SnapshotMetric.SameOutput | backend/scripts/snapshot_diff.py:168-257 | snapshots that agree up to the order of their lists give the same lines in the same order, and the same 50 after capping, against any third |
| ModelSnapshot.LastColumnWins | backend/scripts/snapshot_model_metadata.py:37-41 | a column's type is that of the last declared column with its name: the sort is stable |
| ModelSnapshot.AnyOrderIff | backend/scripts/snapshot_model_metadata.py:37-41 | the columns are the same for every order of declaration if and only if columns with one name have one type |
| ModelSnapshot.BuiltTableHolds | backend/scripts/snapshot_model_metadata.py:44-84 | a built table has the name, the named indexes, the columns of the unique constraints and of no other, and the foreign keys of its model, each as often as declared, and each list in order |
| ModelSnapshot.BuiltSnapshotHolds | backend/scripts/snapshot_model_metadata.py:87-97 | a built snapshot has the table of every model, in order of the names |
| ModelSnapshot.TableCanonical | backend/scripts/snapshot_model_metadata.py:37-84 | a table declared in any order, with its constraints' columns in any order, has the same snapshot |
| ModelSnapshot.SnapshotCanonical | backend/scripts/snapshot_model_metadata.py:87-97 | two builds of the same declarations in any order are both refused by validation or are the same snapshot |
| ModelSnapshot.RebuildNeverDiffers | backend/scripts/snapshot_model_metadata.py:87-97 | if one passes validation so does the other and their diff is empty |
| ModelSnapshot.BuiltTableValidIff | backend/scripts/snapshot_model_metadata.py:44-84 | a built table passes validation if and only if the model has a name and repeats no index name, foreign key, constraint column or constraint over the same columns |
| ModelSnapshot.BuiltSnapshotValidIff | backend/scripts/snapshot_model_metadata.py:87-97 | a built snapshot is valid if and only if every model passes and no two have one name |
| Sorting.SortCanonical | backend/scripts/snapshot_model_metadata.py:37-97 | sorting by a linear order forgets the arrangement |
| Sorting.StringOrderIs | backend/scripts/snapshot_model_metadata.py:37-97 | strings are compared by their first different character, a beginning coming first |
| Sorting.SortedSetIs | scripts/apply_arg_type_ignores.py:48-49 | a sorted set is the one list of its elements in order, each once |
| CapabilityDeps.OverlapEdges | backend/scripts/seed_capability_deps.py:100-120 | for any order of the agents, exactly the ordered pairs of two catalogued agents with at least two tools in common, both ways, once each, as preferred |
| CapabilityDeps.GroupByDomain | backend/scripts/seed_capability_deps.py:122-129 | each domain lists exactly the agents whose first matching prefix it is |
| CapabilityDeps.DomainOf | backend/scripts/seed_capability_deps.py:124-129 | the loop with its break finds the first matching prefix |
| CapabilityDeps.ClusterEdges | backend/scripts/seed_capability_deps.py:131-143 | exactly the pairs of the members not yet joined are added, both ways, once each, as optional |
| CapabilityDeps.InferEdges | backend/scripts/seed_capability_deps.py:100-145 | for any order: an edge is there if and only if it joins two different catalogued agents, preferred with two shared tools, else optional with the same first-matching prefix; each once; preferred ones first |
| DependencyCap.OrderFree | backend/scripts/seed_capability_deps.py:100-145 | two runs over different orders infer the same edges |
| DependencyCap.CapEdges | backend/scripts/seed_capability_deps.py:147-156 | the greedy loop with its counters keeps exactly the edges that are among the first ten of their source |
| DependencyCap.CapKeepsFirst | backend/scripts/seed_capability_deps.py:147-156 | each source keeps exactly its first ten edges, or all |
| DependencyCap.CappedIsSubsequence | backend/scripts/seed_capability_deps.py:147-156 | the kept list is a subsequence |
| DependencyCap.NoPreferredDroppedForOptional | backend/scripts/seed_capability_deps.py:147-156 | no source keeps an optional edge when one of its preferred ones was dropped |
| DependencyCap.CappedDegrees | backend/scripts/seed_capability_deps.py:100-156 | after the cap an agent's out-degree is the smaller of ten and the number of agents it is to depend on, and likewise its number of preferred edges, whatever the order |
| DependencyCap.InsertEdges | backend/scripts/seed_capability_deps.py:158-188 | existing rows stay, each new pair of ids is inserted once with the kind of its first edge, inserted is the number of new pairs, inserted + skipped the number of edges |
| DependencyCap.Run | backend/scripts/seed_capability_deps.py:56-193 | the run as a whole: what the cap keeps of an inferred list, right edges once each, degrees as above, table and counts as above |
| DependencyRules.EdgeIff | backend/scripts/seed_capability_deps.py:31-143 | in terms of the names: an edge joins the capabilities "agent__" + slug of two different agents in the catalog, preferred if and only if they share two tools, optional if and only if they do not but begin with the same one of the fourteen prefixes |
| DependencyRules.EdgeJoinsAgents | backend/scripts/seed_capability_deps.py:107-143 | every edge joins two slugs of the form "agent__" + slug |
| DependencyRules.DomainIff | backend/scripts/seed_capability_deps.py:31-46 | a slug is in a domain if and only if it begins with that prefix, which no two of the fourteen allow at once |
| DependencyRules.KeptIff | backend/scripts/seed_capability_deps.py:147-156 | an edge is kept if and only if fewer than ten edges of its source stand in front of it |
| DependencyRules.EdgeHasRow | backend/scripts/seed_capability_deps.py:158-188 | every edge has its row from the id of its source to that of its target, with its own kind if the pair is new, and there are no other new rows |
| DependencyPromises.SharersJoinedIff | backend/scripts/seed_capability_deps.py:4-5 | after the cap every two agents that share two tools still depend on each other, both ways, if and only if no agent shares two tools with more than ten others, whatever the order of the loops |
| DependencyPromises.TwelveSharersLose | backend/scripts/seed_capability_deps.py:4-5 | twelve agents with the same two tools do not all keep each other |
| DependencyPromises.KeptBothWaysIff | backend/scripts/seed_capability_deps.py:4-5 | the cap keeps every inferred edge, both ways, if and only if no agent is to have more than ten dependencies of any kind |
| DependencyPromises.OneWayKept | backend/scripts/seed_capability_deps.py:147-156 | an agent that is to have more than ten, on agents with at most ten, loses a dependency whose other direction is kept |
| DependencyPromises.KeepsNoOtherIff | backend/scripts/seed_capability_deps.py:147-156 | what the cap keeps does not depend on the order of the edges if and only if every agent is to have at most ten dependencies, or exactly ten preferred ones |
| DependencyPromises.SecondRunInsertsNothing | backend/scripts/seed_capability_deps.py:13-13 | under that condition a second run, in any order and on any table, inserts no row and changes none |
| DependencyPromises.SecondRunIff | backend/scripts/seed_capability_deps.py:13-13 | after a first run into a table without these pairs, no order of a second run inserts anything if and only if that condition holds |
| LlmGuard.FunctionChecker.Visit | backend/scripts/guard_llm_success.py:158-229 | the recursive visitor with its mutable flags equals running the events of the tree, in visit order, through a small state machine |
| LlmGuard.FunctionChecker.CheckAccess | backend/scripts/guard_llm_success.py:180-229 | the common body of the visit methods does what the node's own event does, whatever the variables seen |
| LlmGuard.RunReportsUpTo | backend/scripts/guard_llm_success.py:158-229 | the violations recorded are exactly the exposed content reads, in order, once each |
| LlmGuard.CheckFunction | backend/scripts/guard_llm_success.py:60-229 | a function's report is exactly the content reads that follow an awaited router assignment to that name with no success access since |
| GuardSyntax.AssignedIff | backend/scripts/guard_llm_success.py:51-78 | a name is watched if and only if a plain assignment to it alone, or an annotated one, has an awaited call by one of the five attribute names or four plain names as its value |
| GuardSyntax.ReadIff | backend/scripts/guard_llm_success.py:112-141 | a content read is `v.get(key)`, `v[key]` or `v.key` under response, content, choices or message |
| GuardSyntax.GuardedIff | backend/scripts/guard_llm_success.py:80-106 | a guard is such an access under success; normalize_llm_result(v) is one only if v has that name itself |
| GuardSyntax.NormalizedIff | backend/scripts/guard_llm_success.py:147-155 | the recommended call normalize_llm_result(v) is seen as one event of its own for every other name |
| GuardSyntax.NoneTestedIff | backend/scripts/guard_llm_success.py:26-26 | the documented None test is `if not v`, and nothing else |
| GuardSyntax.LoadedIff | backend/scripts/guard_llm_success.py:33-33 | the documented load is `json.loads(v, ...)`, and nothing else |
| GuardSyntax.CountsIff | backend/scripts/guard_llm_success.py:18-33 | the documentation counts reads under response and content, and loads, as forbidden before a success access, a normalizing call or a None test |
| GuardSyntax.PartByPart | backend/scripts/guard_llm_success.py:158-229 | a node's own event comes before those of its parts, which come in the order of the fields, none left out |
| GuardSyntax.ReadReportedIff | backend/scripts/guard_llm_success.py:70-229 | a content read of an awaited result, plainly assigned or annotated, is reported if and only if the call is to the router by its name and no success access stands in between |
| GuardSyntax.AskAndReadIff | backend/scripts/guard_llm_success.py:48-54 | after `r = await q.f()` the read `r.content` is reported if and only if f is one of the five names, whatever q |
| GuardSyntax.RouteRequestReported | backend/scripts/guard_llm_success.py:48-51 | it is for model_router.route_request, and not for model.ainvoke |
| GuardDocumentation.MissedIff | backend/scripts/guard_llm_success.py:18-33 | a read that the documented rule forbids is not reported if and only if it is `json.loads` of a result with no documented guard since its assignment |
| GuardDocumentation.ExtraIff | backend/scripts/guard_llm_success.py:18-33 | a reported read is not forbidden by the documented rule if and only if its key is not documented or a normalizing call or None test stands behind every unchecked assignment |
| GuardDocumentation.ReportsCompared | backend/scripts/guard_llm_success.py:18-33 | both ways: every violation that only one of the two reports is one of those reads |
| GuardDocumentation.SameReadsIff | backend/scripts/guard_llm_success.py:18-33 | the checker reports exactly the reads that the documented rule forbids if and only if there is no such load and no such extra read; then the reports are equal |
| GuardDocumentation.SameReportIff | backend/scripts/guard_llm_success.py:18-33 | where no variable is read twice on a line, the reports are equal under exactly that condition |
| GuardDocumentation.RecommendedPatternReported | backend/scripts/guard_llm_success.py:23-23 | the recommended assign, normalize, read pattern is reported, against the documentation, for every variable but one named like the guard function |
| GuardDocumentation.NoneTestIgnored | backend/scripts/guard_llm_success.py:26-26 | a read behind the None test is reported, against the documentation |
| GuardDocumentation.OtherKeyReported | backend/scripts/guard_llm_success.py:30-32 | a read under one of the two undocumented keys is reported, against the documentation |
| GuardDocumentation.LoadMissed | backend/scripts/guard_llm_success.py:33-33 | loading an unguarded result as JSON is not reported, against the documentation |
| LlmGuard.ScanModule | backend/scripts/guard_llm_success.py:232-253 | a module's report is that of all its functions, nested ones again on their own, in visit order |
| LlmGuard.FunctionWithin | backend/scripts/guard_llm_success.py:236-241 | the events of a nested function are a contiguous stretch of those of the function around it |
| LlmGuard.OutermostDecide | backend/scripts/guard_llm_success.py:232-253 | nested functions add no new violation: a scan is clean if and only if the outermost functions are |
| TemplateGallery.Gallery.Reload | backend/scripts/reload_builtin_templates.py:50-102 | survivors keep id, owner and usage count and get the file's fields, stale ones go, unmatched templates are added, other rows stay; the counters add up to the file's size and to the size of the index of built-in names |
| GalleryRows.OldRow | backend/scripts/reload_builtin_templates.py:51-94 | of the built-in rows with one name the last one read is refreshed from the first template with that name, field by field, or goes without one; every other row stays as it is |
| GalleryRows.AddedRow | backend/scripts/reload_builtin_templates.py:61-82 | a template adds a row if and only if no built-in row had its name or an earlier template has it: built in, public, owned by user 1, unused |
| GalleryRows.InsertedIs | backend/scripts/reload_builtin_templates.py:82-82 | inserted counts exactly those templates |
| TemplateGallery.UpsertAll | backend/scripts/reload_builtin_templates.py:59-89 | the popping loop: rows kept and refreshed, rows added, index entries left, and the counters |
| TemplateGallery.DeleteLeft | backend/scripts/reload_builtin_templates.py:91-94 | exactly the rows left in the index are deleted |
| TemplateGallery.BuildIndex | backend/scripts/reload_builtin_templates.py:51-56 | the dict by name, for rows in any order; of two with one name the later stays |
| TemplateGallery.Gallery.Seed | seed_templates.py:6931-6966 | nothing happens when a built-in row exists; otherwise exactly the file's templates are added |
| TemplateGallery.Gallery.SeedConsulting | backend/scripts/seed_consulting_templates.py:232-275 | nothing happens without a user or when a name is ambiguous; otherwise exactly the templates whose name no row had at the start are added |
| GalleryRows.SeededRow | seed_templates.py:6944-6963 | every template of a seeding gets a row: built in, public, owned by user 1, unused |
| GalleryRows.ConsultedRow | backend/scripts/seed_consulting_templates.py:246-273 | a consulting template gets a row if and only if no row at all had its name: built in and public as it says, owned by the first user, unused |
| GalleryRows.RaisesIff | backend/scripts/seed_consulting_templates.py:248-249 | the seeder raises if and only if two rows have the name of one of its templates |
| GalleryRuns.MatchesIff | backend/scripts/reload_builtin_templates.py:50-102 | after a reload the gallery matches the file - each name once, all five fields equal, nothing else built in - if and only if the file repeats no name and the built-in rows repeated none |
| GalleryRuns.Survivor | backend/scripts/reload_builtin_templates.py:83-89 | a row that survives keeps its name, owner, visibility and usage count |
| GalleryRuns.NotBuiltin | backend/scripts/reload_builtin_templates.py:53-53 | rows that are not built in are not touched |
| GalleryRuns.IndexSize | backend/scripts/reload_builtin_templates.py:51-56 | with unique names the index has one entry for each built-in row, so updated + deleted is their number |
| GalleryRuns.SecondReload | backend/scripts/reload_builtin_templates.py:50-102 | a reload of a gallery that matches changes and inserts nothing |
| GalleryRuns.SeedMatchesIff | seed_templates.py:6944-6966 | seeding a gallery without built-in rows matches the file if and only if the file repeats no name |
| GalleryRuns.ConsultingUniqueIff | backend/scripts/seed_consulting_templates.py:246-275 | the consulting seeder keeps built-in names unique if and only if it is not given two built-in templates with one name that no row has |
| GalleryRuns.ConsultedSurvivesIff | backend/scripts/seed_consulting_templates.py:246-275 | a row the consulting seeder added survives the next reload if and only if it is not built in, the file has its name, or another row stands for that name; survivors that stand for a name get the file's fields |
| GalleryRuns.UniqueOverRuns | backend/scripts/reload_builtin_templates.py:50-102 | over any interleaving of reloads, both seeders and users, with lists that repeat no name, built-in names stay unique and the gallery matches the file after every reload |
| BackfillWorkspace.BuildMap | backend/scripts/backfill_workspace_id.py:45-58 | each user is mapped to the oldest active workspace owned, else the first membership |
| BackfillWorkspace.StrInjective | backend/scripts/backfill_workspace_id.py:106-110 | decimal rendering tells user ids apart, so string-typed columns match one user at most |
| BackfillRule.StrIff | backend/scripts/backfill_workspace_id.py:110-110 | a user id is rendered as its one decimal notation |
| BackfillWorkspace.AnyOrderFills | backend/scripts/backfill_workspace_id.py:107-134 | the updates user by user in any order of the map, then the fallback, give every row what the pointwise rule gives it |
| BackfillWorkspace.BackfillTable | backend/scripts/backfill_workspace_id.py:88-141 | one table: every row as by the rule, updated counting exactly the NULL rows |
| BackfillWorkspace.Update | backend/scripts/backfill_workspace_id.py:110-120 | a statement changes exactly the NULL rows that match and returns their number |
| BackfillWorkspace.Database.Run | backend/scripts/backfill_workspace_id.py:24-162 | without active workspace nothing changes; otherwise every NULL row gets its user's workspace or the default, other rows stay, and the total is the number of NULL rows at the start |
| BackfillRule.RowRule | backend/scripts/backfill_workspace_id.py:45-134 | a row that had no workspace gets the first one its user owns, else the user's first membership, else the first of all; the user is read as a number, or as a decimal string where the column is a string |
| BackfillRule.ScopedNullsAre | backend/scripts/backfill_workspace_id.py:116-134 | the total over the tables with a user column counts every row without a workspace once |
| BackfillRule.PlainNullsAre | backend/scripts/backfill_workspace_id.py:143-158 | so does the total over the tables without one |
| BackfillWorkspace.NoNullRemains | backend/scripts/backfill_workspace_id.py:123-134 | no row is left without a workspace |
| BackfillWorkspace.SecondRun | backend/scripts/backfill_workspace_id.py:1-9 | a later run, whatever the workspaces are by then, changes no row |
| VersionedCatalog.Catalog.Import | backend/scripts/import_builtin_tools.py:176-290 | one transaction of upserts and snapshots: all items in order, or nothing where a NULL version raises; new + updated is the number of items |
| VersionedCatalog.Catalog.Stubs | backend/scripts/add_stub_tools.py:168-233 | each stub is added with snapshot 1 or skipped; inserted + skipped is the number of stubs |
| VersionedCatalog.Catalog.ImportAgents | backend/scripts/import_agent_templates.py:57-285 | the two passes are one import of the concatenated lists, which never raises; new + updated is their number |
| VersionedCatalog.ImportConcat | backend/scripts/import_agent_templates.py:57-285 | two imports on end are one, also when they share slugs |
| VersionedCatalog.UpsertEffect | backend/scripts/import_builtin_tools.py:212-290 | an item changes only its own row and snapshots: the id is kept, the next version gets one more snapshot with the content written |
| VersionedCatalog.ToolsRaiseIff | backend/scripts/import_builtin_tools.py:212-249 | the import of tools raises, and is undone, if and only if it comes to a row whose version is NULL |
| CatalogRuns.StepRow | backend/scripts/import_builtin_tools.py:212-290 | one upsert gives its row the next version and one more snapshot with the content written; neither it nor a stub touches any other row that is there |
| CatalogRuns.RunRow | backend/scripts/import_builtin_tools.py:176-290 | over any run, whatever the other rows are like, a row keeps its id, takes one version and one snapshot for each update that hits it, and keeps the snapshots it had |
| CatalogRuns.RunCreates | backend/scripts/import_builtin_tools.py:176-290 | a row that the run created has snapshots numbered exactly 1 to its version, once each, the newest of which is its content |
| CatalogRuns.RunKeeps | backend/scripts/import_builtin_tools.py:176-290 | a row whose snapshots lead up to its version stays so, as many of the first ones missing as before; a row that agreed with its newest snapshot still does, and every updated one does |
| CatalogRuns.RunLeadsUpIff | backend/scripts/import_agent_templates.py:80-121 | over any run the snapshots of a row lead up to its version at the end if and only if they did at the start with a known version and, for agents, it was not updated at version 0 |
| CatalogRuns.NullStays | backend/scripts/import_agent_templates.py:80-121 | an agent template whose version is NULL stays so, and each update appends one more snapshot numbered 2 |
| CatalogRuns.ImportIsRun | backend/scripts/import_builtin_tools.py:176-290 | every stub list, and every import that does not raise, is such a run |

## Left out

- Parsing and unparsing Python: calls come as values with their source range, and the new text of a
  call is given. Which calls are logger calls is decided by the caller.
- `ast.parse` of a result is a parameter (`parses`); file walking, dry runs, printing, logging,
  argument parsing and command lines.
- Line separators other than newline, and the difference between UTF-8 byte and character columns.
- The `*` width and `(key)` of printf directives are read as errors, which no converter emits; a
  single mapping as the only argument of a logging call, whose text is the same.
- `FStringLoggers.MessageKeptIff`: is about fields without format spec; `str` and `format` with an
  empty spec are taken to be the same text. With specs, what `%` and `format` print differs by type
  of value, so `FieldsKeptMessageKept` states what the converter adds on its own: nothing.
- `FStringSplice.SourceFile.ConvertFile`: no two targets start at one place, and each is in the lines
  there are when its turn comes; calls nested in one another, or sharing a line with the end of a
  call that runs over several lines, get the step-by-step result only. Sorting descending is sorting
  ascending and walking from the end.
- `parse_baseline`, and reading the set of line numbers from it.
- The type checks of the snapshot validators (dict, list, string); tables are typed values here.
- `SnapshotDiff.DiffTables`: lines are values, not strings, which are ambiguous when names contain
  dots; labels are sorted as lists of names, not by their JSON text, so the order of lines within
  one family of constraints can differ. The set of lines and their number do not.
- Time stamps, version strings and the model count of a snapshot, which the diff ignores.
- Exceptions swallowed per row when dependencies and stubs are inserted; a failing statement.
- `DependencyPromises.SecondRunIff`: the orders of a second run are all lists of the right edges, once
  each, with preferred ones first; the loops over agents may not bring about every one of them.
- `LlmGuard.CheckFunction`: the visit order is that of the fields of the syntax tree, not of
  execution, as in the source; branches, loops and reassignment by other values are not told apart.
- `TemplateGallery.Gallery.Reload`: works on a copy of the rows that replaces the table when the
  session commits; that records are shared objects within a session is not modelled.
- `GuardDocumentation.MissedIff`: the documented rule is read with the checker's own notion of an
  assignment, after each of which a guard is needed anew; its patterns are the shapes that are listed.
- `VersionedCatalog.Catalog.ImportAgents`: that it never raises is about rows and versions; the SQL
  text of its statements, one of which casts a parameter in a form that the importer of tools calls
  unsafe, is not part of the model.
- Fields of templates that no script changes (tags, default tasks, constraints, rating).
- Random ids: new ids are parameters, required to be new and different.
- Table and column names of the backfill, and the look-up of a column's type: a table says whether
  its user column is string-typed.
- JSON serialisation of catalog contents: a content is one string, the same in row and snapshot.
- The executor, leases, human approvals and circuit breaker: only described, not among these scripts.
- `migrate_redis_memories`, `backfill_runs`, `select-sanity`, `sanitize` and the document validators:
  easy scripts, or not idempotent as written.
- Seed data, migrations, and the wiring of the web service, its clients and its command line.
