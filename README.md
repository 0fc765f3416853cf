# Change-application engines of ai-code-comments, in Dafny

This project models the parts of ai-code-comments that turn an edit written
by a language model into new file content, and proves what each of them
does. Every engine works only on strings and lists of lines:

- **PatcherV4** (`patcher_v4.dfy`) normalises newlines and splits a
  range-less unified diff into hunks. It projects each hunk to a `before`
  and an `after` text and locates `before` by exact search with a
  uniqueness check. It then tries a whitespace-collapsed retry and an
  optional fuzzy locator, and splices `after` in. A `continue_on_error`
  switch decides whether a failing hunk aborts the run. The class
  `Patcher` holds the two switches.
- **PatcherV3** (`patcher_v3.dfy`) is the same pipeline with exact unique
  matching only, stopping at the first error. Hunk assembly and the
  before/after projection are the same code in both patchers and live in
  `diff_hunks.dfy`. `patcher_v3_example.dfy` works the repository's
  PatcherV3 example through the model.
- **UnifiedDiffPatcher** (`unified_diff_patcher.dfy`; the two identical
  `patcher_v2.py` copies) treats the whole diff as one hunk. It uses
  `str.count`, which does not count overlapping occurrences, as its
  uniqueness test.
- **MyPatcher** (`my_patcher.dfy`; `patcher.py`) works on lists of lines
  with `@@` sections. It applies each section at the first place its lines
  occur and skips sections that occur nowhere.
- **The my-patch.py script** (`my_patch_script.dfy`) anchors each hunk on
  its joined context lines. It replays the changes backwards at that line,
  inserting and deleting in place.
- **SearchReplaceStrategy** (`search_replace.dfy`) extracts
  `<<<<<<< SEARCH` / `=======` / `>>>>>>> REPLACE` blocks with a lazy
  regular expression. It replaces the first match of each block's search
  text, block after block, skipping blocks that fail.
- **strip_code_block_markers** (`code_fence.dfy`) removes one opening and
  one closing Markdown fence.
- **TwigAstComparator** (`twig_comparator.dfy`) normalises two templates:
  it removes comments, collapses whitespace and trims. It then compares the
  texts, or the parsed trees node by node.
- **ProfileLoader** (`profiles.dfy`) holds the profile tables loaded from
  YAML and resolves a profile's model alias.
- **LLMClient construction** (`llm_client.dfy`) selects the provider by
  model-name prefix, strips the prefix and validates the API key.
- **format_bytes** (`byte_size.dfy`) picks the unit and renders a byte
  count.

Python's `str` operations used throughout are defined once, in
`pystr.dfy`: `find` and repeated `find`, `count`, `replace`, `splitlines`,
`strip`, `split`, `join` and slicing. `text_scan.dfy` holds a
character-wise match and scan used by the regular-expression models, and
`wrappers.dfy` holds `Option` and `Result`. Exceptions are modelled as
`Err` values of a `Result`.

Where the source behaves surprisingly, the model keeps the behaviour as
written and proves a lemma that exhibits it. The surprises covered:

- PatcherV4's retry cuts `len(before)` characters from where
  `before.strip()` was found.
- `str.count` lets an overlapping second occurrence through.
- my-patch.py replays every change of a hunk at one fixed index of a list that changes under it.
- MyPatcher always adds a final newline.
- format_bytes can print `1024.0 KB`.

## Model

| member | source | states |
|---|---|---|
| PatcherV4.NormalizedHasNoCR | phpcomment/utils/patcher_v4.py:87-89 | after `_normalize_newlines` no carriage return is left |
| PatcherV4.NormalizeWithoutCR | phpcomment/utils/patcher_v4.py:87-89 | text with no carriage return is returned unchanged |
| PatcherV4.NormalizeIdempotent | phpcomment/utils/patcher_v4.py:87-89 | normalising twice is the same as normalising once |
| PatcherV4.NormalizeCRLF | phpcomment/utils/patcher_v4.py:87-89 | the first CRLF pair becomes a single `\n`, and the rest is normalised independently |
| PatcherV4.NormalizeLoneCR | phpcomment/utils/patcher_v4.py:87-89 | a CR not followed by `\n` becomes `\n`, and the rest is normalised independently |
| PatcherV4.LineOffsetStartsLine | phpcomment/utils/patcher_v4.py:186-189 | the sum of line lengths plus one per line up to line `j` is the offset at which line `j` starts in the `\n`-joined text |
| PatcherV4.FindBestMatch | phpcomment/utils/patcher_v4.py:143-191 | the loop collects every exact occurrence, and the result is the location `BestMatch` specifies: the end for a blank `before`, the unique occurrence, `MultipleMatchesError`, `NoMatchError` without fuzzy matching, or the fuzzy locator's line turned into an offset |
| PatcherV4.UniqueBestMatch | phpcomment/utils/patcher_v4.py:150-160 | a non-blank `before` with exactly one exact occurrence is located there |
| PatcherV4.BlankBeforeMatchesAtEnd | phpcomment/utils/patcher_v4.py:145-147 | a whitespace-only `before` is located at `len(content)`, and the splice starts there |
| PatcherV4.ApplySingleHunk | phpcomment/utils/patcher_v4.py:193-217 | the method returns the specified outcome: the located match replaced by `after`, or, on `NoMatchError`, the whitespace-normalised retry |
| PatcherV4.Retry | phpcomment/utils/patcher_v4.py:204-217 | the retry re-raises `NoMatchError` unless collapsed `before` occurs in collapsed content, and then it splices at the location of `before.strip()` |
| PatcherV4.BlankBeforeAppends | phpcomment/utils/patcher_v4.py:145-147 | a whitespace-only `before` appends `after` to the content |
| PatcherV4.UniqueOccurrenceSpliced | phpcomment/utils/patcher_v4.py:197-202 | a unique exact occurrence is replaced by `after`, and everything before and after it is kept |
| PatcherV4.AmbiguousHunkFails | phpcomment/utils/patcher_v4.py:159-162 | two distinct exact occurrences raise `MultipleMatchesError`, whatever the fuzzy setting |
| PatcherV4.UnmatchedHunkRetries | phpcomment/utils/patcher_v4.py:204-217 | with fuzzy matching off and no exact occurrence, the hunk fails unless collapsed `before` occurs in collapsed content; if it does, the splice uses the location of `before.strip()` |
| PatcherV4.QuirkNoExactMatch | phpcomment/utils/patcher_v4.py:164-165 | a `before` with two leading spaces is not found exactly in `ab cd`, so `NoMatchError` is raised |
| PatcherV4.CollapsedFind | phpcomment/utils/patcher_v4.py:206-209 | after collapsing whitespace, a space-indented word is found at the start of text that begins with it |
| PatcherV4.QuirkCollapsedMatch | phpcomment/utils/patcher_v4.py:206-209 | in the example, the whitespace-normalised search succeeds |
| PatcherV4.QuirkWordUnique | phpcomment/utils/patcher_v4.py:150-160 | in the example, the stripped text occurs exactly once, at 0 |
| PatcherV4.QuirkStrippedMatch | phpcomment/utils/patcher_v4.py:213 | in the example, `before.strip()` is located at 0 |
| PatcherV4.RetryCutsPastTheMatch | phpcomment/utils/patcher_v4.py:213-215 | the retry cuts `len(before)` characters from where the stripped text was found, so `ab cd` with `before` = two spaces then `ab` loses ` c` as well and becomes `after + "d"` |
| PatcherV4.AgreesWithV3 | phpcomment/utils/patcher_v4.py:193-202 | wherever PatcherV3 succeeds, PatcherV4 gives the same text, and wherever V3 reports multiple matches, so does V4 |
| PatcherV4.ContinuingNeverAborts | phpcomment/utils/patcher_v4.py:63-76 | with `continue_on_error` the run always completes, and the failed hunk numbers are increasing and within range |
| PatcherV4.ContinuingFailuresAreFailingHunks | phpcomment/utils/patcher_v4.py:63-73 | with `continue_on_error` the run completes, and hunk `n + j` is reported as failed exactly when it fails on the content the hunks before it left |
| PatcherV4.PolicyIrrelevantWithoutFailures | phpcomment/utils/patcher_v4.py:63-76 | when no hunk fails, both policies give the same result with no failures |
| PatcherV4.ReplayStepSkip | phpcomment/utils/patcher_v4.py:69-72 | a failing hunk under `continue_on_error` is recorded by its 1-based number and the content is kept |
| PatcherV4.ReplayStepAbort | phpcomment/utils/patcher_v4.py:74-76 | without `continue_on_error`, the first failure ends the run with that error and that hunk number |
| PatcherV4.StopsAtFirstFailure | phpcomment/utils/patcher_v4.py:63-85 | without `continue_on_error`, a run that stops does so at hunk `n + k` where every earlier hunk applied and hunk `k` fails on their result with the reported error; a run that completes has no failures |
| PatcherV4.TryHunk | phpcomment/utils/patcher_v4.py:65-67 | one loop turn projects the hunk to before/after texts and applies it |
| PatcherV4.Patcher.constructor | phpcomment/utils/patcher_v4.py:23-32 | the two switches are stored as given |
| PatcherV4.Patcher.Default | phpcomment/utils/patcher_v4.py:23-32 | with no arguments, `continue_on_error` is off and `fuzzy_match` is on |
| PatcherV4.Patcher.ApplyPatch | phpcomment/utils/patcher_v4.py:40-85 | both inputs are normalised, the diff is split into hunks, and the hunks are replayed in order under the policy |
| PatcherV4.Patcher.ApplyHunks | phpcomment/utils/patcher_v4.py:60-85 | the loop's final content, its failed hunks, or its aborting error equal the specified replay |
| PatcherV3.ApplySingleHunk | phpcomment/utils/patcher_v3.py:80-104 | the method returns the specified outcome of the exact-match search loop |
| PatcherV3.BlankBeforeAppends | phpcomment/utils/patcher_v3.py:83-84 | a whitespace-only `before` appends `after` |
| PatcherV3.NoMatchIffAbsent | phpcomment/utils/patcher_v3.py:96-97 | `NoMatchError` is raised exactly when a non-blank `before` does not occur |
| PatcherV3.MultipleIffTwoOccurrences | phpcomment/utils/patcher_v3.py:98-99 | `MultipleMatchesError` is raised exactly when `before` occurs at two distinct positions, overlapping ones included |
| PatcherV3.SuccessReplacesTheOccurrence | phpcomment/utils/patcher_v3.py:100-104 | a success means `before` occurs exactly once, and only that occurrence is replaced by `after` |
| PatcherV3.UniqueMatchIsReplaced | phpcomment/utils/patcher_v3.py:100-104 | `head + before + tail` with a single match becomes `head + after + tail` |
| PatcherV3.UniqueMatchAtStartIsReplaced | phpcomment/utils/patcher_v3.py:100-104 | the same at the start of the content |
| PatcherV3.PureContextHunkIsIdentity | phpcomment/utils/patcher_v3.py:100-104 | a hunk whose `before` and `after` are equal leaves uniquely matching content unchanged |
| PatcherV3.ApplyPatch | phpcomment/utils/patcher_v3.py:17-37 | the result is the hunks of the split diff, applied in order, stopping at the first error |
| PatcherV3.ApplyAll | phpcomment/utils/patcher_v3.py:33-37 | the loop's result equals the specified sequential application |
| PatcherV3.TryHunk | phpcomment/utils/patcher_v3.py:35-36 | one loop turn projects the hunk and applies it |
| PatcherV3.ApplyHunksSequential | phpcomment/utils/patcher_v3.py:33-37 | applying `hs1 + hs2` is applying `hs1` and then `hs2` to its result, and an error in `hs1` stops everything |
| PatcherV3.TwoHunks | phpcomment/utils/patcher_v3.py:33-37 | two hunks that apply in turn give the second result |
| DiffHunks.ParseHunks | phpcomment/utils/patcher_v4.py:91-117 | the loop's hunks equal the specification `Hunks` of the diff's lines (kept ends) |
| DiffHunks.CloserSeparatesHunks | phpcomment/utils/patcher_v3.py:51-56 | a line that starts with none of space, `-` or `+` closes the current hunk, and what follows is parsed afresh |
| DiffHunks.HeaderIsDropped | phpcomment/utils/patcher_v3.py:47-49 | `---` and `+++` lines are skipped without closing the hunk |
| DiffHunks.RunOfBodyLines | phpcomment/utils/patcher_v3.py:45-60 | a run of body lines is a single hunk, and no lines make no hunk |
| DiffHunks.HunksWellFormed | phpcomment/utils/patcher_v3.py:39-62 | every hunk is non-empty and made of body lines, and together the hunks are exactly the diff's body lines in order |
| DiffHunks.RunAppend | phpcomment/utils/patcher_v3.py:45-58 | the parser state after `a + b` is the state after `b` started from the state after `a` |
| DiffHunks.HunkToBeforeAfter | phpcomment/utils/patcher_v4.py:119-141 | the loop builds `before` from the space and `-` lines and `after` from the space and `+` lines, first character dropped |
| DiffHunks.ProjectionDistributes | phpcomment/utils/patcher_v3.py:64-78 | the projections of `a + b` are those of `a` followed by those of `b` |
| DiffHunks.ProjectionOfLine | phpcomment/utils/patcher_v3.py:69-76 | a single line goes to `before`, to `after`, or to both according to its first character |
| DiffHunks.ContextOnlyProjectsEqual | phpcomment/utils/patcher_v3.py:69-76 | a hunk of context lines only has equal `before` and `after` |
| UnifiedDiffPatcher.HunkToBeforeAfter | phpcomment/utils/patcher_v2.py:38-60 | the loop's texts are the `before` and `after` projections of the whole diff, lines split with their ends kept |
| UnifiedDiffPatcher.ApplyPatch | phpcomment/utils/patcher_v2.py:13-36 | the result is the outcome of applying the diff's single hunk |
| UnifiedDiffPatcher.NotFoundIffAbsent | phpcomment/utils/patcher_v2.py:79-81 | the "not found" error is raised exactly when `before` never occurs |
| UnifiedDiffPatcher.DisjointOccurrencesAreAmbiguous | phpcomment/utils/patcher_v2.py:84-85 | two non-overlapping occurrences raise the "multiple matches" error |
| UnifiedDiffPatcher.AmbiguousIffDisjointOccurrences | aicoder/utils/patcher_v2.py:84-85 | for a non-empty `before`, the "multiple matches" error is raised exactly when two non-overlapping occurrences exist, because `count` only counts those |
| UnifiedDiffPatcher.SuccessReplacesLeftmost | phpcomment/utils/patcher_v2.py:87-91 | a success replaces the leftmost occurrence; any other occurrence overlaps it |
| UnifiedDiffPatcher.OverlapCountsAsUnique | aicoder/utils/patcher_v2.py:79-91 | `"aa"` occurs twice in `"aaa"`, yet the hunk applies and gives `"ba"` |
| UnifiedDiffPatcher.EmptyBefore | phpcomment/utils/patcher_v2.py:79-91 | an empty `before` applies to empty content by prepending `after`, and is ambiguous otherwise |
| UnifiedDiffPatcher.FailuresAreWrapped | phpcomment/utils/patcher_v2.py:31-34 | every failure is re-raised with the "Failed to apply patch: " prefix, and a success passes through unchanged |
| UnifiedDiffPatcher.HeaderFeedsBefore | aicoder/utils/patcher_v2.py:51-58 | a `---` header line is taken as a removal, so `--` and the rest of the line join `before` |
| MyPatcher.ParseHunk | phpcomment/utils/patcher.py:57-80 | the loop's lists are the `original` and `modified` projections of the hunk's lines |
| MyPatcher.OriginalDistributes | phpcomment/utils/patcher.py:63-78 | the `original` projection of `a + b` is that of `a` followed by that of `b` |
| MyPatcher.ModifiedDistributes | phpcomment/utils/patcher.py:63-78 | the same for the `modified` projection |
| MyPatcher.LineProjection | phpcomment/utils/patcher.py:63-78 | an empty line is context on both sides; a space line goes to both sides, a `-` line to `original`, a `+` line to `modified`, any other line to neither; the first character is dropped |
| MyPatcher.ContextOnlyHunk | phpcomment/utils/patcher.py:63-78 | without `-` and `+` lines both projections are equal |
| MyPatcher.ParsePatchHunks | phpcomment/utils/patcher.py:28-55 | the loop's hunks equal the specification `PatchHunks` of the patch's lines |
| MyPatcher.RunAppend | phpcomment/utils/patcher.py:35-47 | parsing `a + b` continues from the state reached after `a` |
| MyPatcher.FileHeaderIsSkipped | phpcomment/utils/patcher.py:36-38 | `---` and `+++` lines are ignored wherever they stand |
| MyPatcher.PreambleIsIgnored | phpcomment/utils/patcher.py:40-47 | lines before the first `@@ ` header change nothing |
| MyPatcher.BodyIsCollected | phpcomment/utils/patcher.py:46-47 | inside a hunk, every body line is collected in order |
| MyPatcher.Section | phpcomment/utils/patcher.py:40-44 | a header closes the open hunk, if any, and starts collecting its own body |
| MyPatcher.NoHunkHeaderNoHunks | phpcomment/utils/patcher.py:40-50 | a patch without `@@ ` lines yields no hunks |
| MyPatcher.TwoSections | phpcomment/utils/patcher.py:28-55 | a preamble and two non-empty sections give exactly the two hunks, in order |
| MyPatcher.NextSection | phpcomment/utils/patcher.py:40-44 | the next header emits the open hunk |
| MyPatcher.FirstSection | phpcomment/utils/patcher.py:40-47 | the first header opens an empty hunk that collects its body |
| MyPatcher.FirstMatchFrom | phpcomment/utils/patcher.py:92-100 | a found position is one where the search lines occur |
| MyPatcher.HunkPosition | phpcomment/utils/patcher.py:82-103 | a found position is one where the hunk's `original` lines occur |
| MyPatcher.FirstMatchFromIsFirst | phpcomment/utils/patcher.py:92-100 | the scan from `i` finds the first occurrence at or after `i`, or reports that none exists |
| MyPatcher.PositionIsFirstMatch | phpcomment/utils/patcher.py:82-103 | the position is the first occurrence of the `original` lines; `None` exactly when they occur nowhere |
| MyPatcher.FindHunkPosition | phpcomment/utils/patcher.py:82-103 | the nested loops with `break` return the specified position |
| MyPatcher.ApplyHunk | phpcomment/utils/patcher.py:105-118 | the method returns the specified content, the matched lines replaced or the content unchanged |
| MyPatcher.HunkReplacesFirstMatch | phpcomment/utils/patcher.py:107-117 | an unplaced hunk is skipped; otherwise exactly the first occurrence of `original` is replaced by `modified` |
| MyPatcher.EmptyOriginalPrepends | phpcomment/utils/patcher.py:87-89 | a hunk without `original` lines inserts its lines at the top |
| MyPatcher.FoundIdentityHunk | phpcomment/utils/patcher.py:105-118 | a hunk whose `original` and `modified` lines are equal changes nothing |
| MyPatcher.ApplyPatch | phpcomment/utils/patcher.py:120-135 | the result is the hunks applied in order to the source lines, joined with `\n`, and it always ends in `\n` |
| MyPatcher.ApplyAllSequential | phpcomment/utils/patcher.py:130-132 | applying `hs1 + hs2` is applying `hs1` and then `hs2` |
| MyPatcher.UnfoundHunksAreSkipped | phpcomment/utils/patcher.py:108-110 | hunks that cannot be placed leave the content as it is |
| MyPatchScript.ParseHunk | my-patch.py:26-47 | the loop returns the specified context-before, changes and context-after of the lines after the `@@` line, or the `pop from empty list` error |
| MyPatchScript.HunkRunStopsAtError | my-patch.py:35-45 | once a prefix of the hunk raises, the whole hunk raises the same error |
| MyPatchScript.ChangesInOrder | my-patch.py:40-45 | the changes are the `-` and `+` lines in their order, whatever the context lines around them |
| MyPatchScript.LeadingContext | my-patch.py:36-39 | space lines before any change all go to `context_before` |
| MyPatchScript.RemovalWithoutContextFails | my-patch.py:40-42 | a `-` line right after the header pops from an empty `context_before`, and the parse raises |
| MyPatchScript.RemovalPopsLeadingContext | my-patch.py:40-43 | a `-` line still in the leading section pops the last context line, so that line is lost from the search context |
| MyPatchScript.ContextAfterChangeTrails | my-patch.py:36-39 | once there is a change, a space line switches to `context_after` and is appended there |
| MyPatchScript.ParsePatchHunks | my-patch.py:6-24 | the loop's result equals the specified `PatchHunks` of the patch's lines |
| MyPatchScript.PatchRunStopsAtError | my-patch.py:12-22 | an error while closing an earlier hunk is the error of the whole parse |
| MyPatchScript.PreambleIsDropped | my-patch.py:12-19 | lines before the first `@@ ` line are not collected |
| MyPatchScript.SectionGrows | my-patch.py:18-19 | inside a hunk every non-header line, the header included, is collected |
| MyPatchScript.OneSection | my-patch.py:6-24 | a preamble followed by one section gives exactly the parse of that section |
| MyPatchScript.FindHunkPosition | my-patch.py:49-75 | the method returns the specified position: -1 without context, 0 for empty search text, the line of the unique match plus the length of `context_before`, and -1 otherwise |
| MyPatchScript.NewlinesAppend | my-patch.py:73 | the newline count of `a + b` is the sum of the counts |
| MyPatchScript.LinesBeforeCount | my-patch.py:73 | joining `k` newline-free lines and adding a newline gives `k` newlines, so the match offset converts to a line number |
| MyPatchScript.UniqueContextPlacesHunk | my-patch.py:71-73 | when the context occurs once, at the start of a line `k` after the first, the hunk goes to line `k + len(context_before)` |
| MyPatchScript.UniqueContextAtFirstLine | my-patch.py:71-73 | when the context occurs once, at the start of the first line, the hunk goes to line `len(context_before)` |
| MyPatchScript.PositionEdgeCases | my-patch.py:51-59 | no context gives -1, a single empty context line gives 0, and zero or several matches give -1 |
| MyPatchScript.Insert | my-patch.py:99 | `insert` adds exactly one line, appending past the end |
| MyPatchScript.Delete | my-patch.py:102 | `del` removes exactly one line |
| MyPatchScript.ReplayInPlace | my-patch.py:97-104 | the in-place loop over the reversed changes gives the specified replay at one fixed position |
| MyPatchScript.ApplyPatch | my-patch.py:77-106 | the result is the hunks, taken last to first, each placed against the original lines and replayed, joined with `\n`; a parse error is passed on |
| MyPatchScript.AdditionsKeepOrder | my-patch.py:97-99 | additions replayed backwards at one position come out in their original order |
| MyPatchScript.SingleRemoval | my-patch.py:100-102 | removing the line at the position deletes exactly it |
| MyPatchScript.TwoRemovalsDeleteOnlyTheFirst | my-patch.py:97-104 | removing `a` then `b` at line 0 of `["a", "b"]` leaves `["b"]`: the backward replay checks `b` first, finds `a` there, and skips it |
| MyPatchScript.UnplacedHunksAreSkipped | my-patch.py:92-94 | hunks without a position leave the lines unchanged |
| SearchReplace.MatchSound | phpcomment/strategies/searchreplace_strategy.py:72-75 | a block found at a position is the text there: opening marker, search group, divider, replacement group, closing marker, with both lazy groups as short as possible |
| SearchReplace.MatchDelimited | phpcomment/strategies/searchreplace_strategy.py:72-75 | conversely, a delimited block with shortest groups standing at a position is the match found there, and the scan resumes right after it |
| SearchReplace.BlocksAreDelimited | phpcomment/strategies/searchreplace_strategy.py:72-75 | every pair `re.findall` yields is a delimited block of the response with shortest groups |
| SearchReplace.NoMarkerNoBlocks | phpcomment/strategies/searchreplace_strategy.py:72-79 | without an opening marker from the scan position on, no block is found |
| SearchReplace.ExtractRendered | phpcomment/strategies/searchreplace_strategy.py:72-75 | a tail made of rendered blocks is read back as exactly those blocks |
| SearchReplace.RenderedRoundTrip | phpcomment/strategies/searchreplace_strategy.py:72-75 | rendering blocks whose groups hold no earlier delimiter and extracting them gives the same blocks back |
| SearchReplace.EscapedMatchesLiterally | phpcomment/strategies/searchreplace_strategy.py:86-88 | doubling the backslashes makes the pattern denote the search text itself |
| SearchReplace.ApplySearchReplaceBlocks | phpcomment/strategies/searchreplace_strategy.py:60-103 | the loop returns the blocks applied in order, each to the content the previous ones left, and the original content when there are no blocks |
| SearchReplace.LiteralBlockReplacesFirst | phpcomment/strategies/searchreplace_strategy.py:87-96 | a literal block replaces the leftmost occurrence of its search text only, and with no occurrence changes nothing |
| SearchReplace.FailingRegexIsSkipped | phpcomment/strategies/searchreplace_strategy.py:93-101 | a block whose regex raises or matches nothing leaves the content unchanged |
| SearchReplace.ApplyAllSequential | phpcomment/strategies/searchreplace_strategy.py:84-96 | applying `xs + ys` is applying `xs` and then `ys` to the result |
| SearchReplace.SkippedBlockIsTransparent | phpcomment/strategies/searchreplace_strategy.py:93-101 | a block that changes nothing where it stands can be dropped from the sequence without changing the result |
| SearchReplace.NoBlocksNoChange | phpcomment/strategies/searchreplace_strategy.py:77-79 | a response without an opening marker returns the original content |
| SearchReplace.FencedResponse | phpcomment/strategies/searchreplace_strategy.py:47-54 | a response fenced as a code block is processed as its body |
| CodeFence.WordRunEnd | phpcomment/llm/helpers.py:21 | the greedy `\w*` stops at the first non-word character and consumes only word characters |
| CodeFence.StripOpening | phpcomment/llm/helpers.py:21 | the result is a suffix of the content |
| CodeFence.OpeningIsFenceLine | phpcomment/llm/helpers.py:21 | the opening substitution either leaves the content alone or removes exactly a leading three-backtick line with a word-character language tag |
| CodeFence.OpeningRemovesFenceLine | phpcomment/llm/helpers.py:21 | a leading fence line with a word tag is always removed |
| CodeFence.WordRunStops | phpcomment/llm/helpers.py:21 | the word run ends at the first non-word character |
| CodeFence.NoOpeningFence | phpcomment/llm/helpers.py:21 | content not starting with three backticks keeps its start |
| CodeFence.ClosingAtEnd | phpcomment/llm/helpers.py:22 | a closing fence at the very end is removed with its newline |
| CodeFence.ClosingBeforeFinalNewline | phpcomment/llm/helpers.py:22 | `$` also matches before a final newline, so a closing fence followed by one newline is removed and the newline kept |
| CodeFence.ClosingIsFenceLine | phpcomment/llm/helpers.py:22 | the closing substitution leaves the content alone or removes exactly a trailing fence line, with or without the final newline after it |
| CodeFence.UnfencedUnchanged | phpcomment/llm/helpers.py:11-23 | content with neither fence is returned unchanged |
| CodeFence.FencedBlock | phpcomment/llm/helpers.py:11-23 | a fenced block with a word language tag gives back exactly its body |
| CodeFence.PhpBlock | phpcomment/llm/helpers.py:11-23 | a concrete php-tagged block gives back its body |
| TwigComparator.PlainPrefix | compare-twig-files/src/TwigAstComparator.php:57-60 | text in which no comment opener starts is copied through the comment removal unchanged |
| TwigComparator.KeepFirst | compare-twig-files/src/TwigAstComparator.php:57-60 | a first character that does not open a comment is kept |
| TwigComparator.NoCommentUnchanged | compare-twig-files/src/TwigAstComparator.php:57-60 | text without an opener, or without any closer, is unchanged by the comment removal |
| TwigComparator.SkipComment | compare-twig-files/src/TwigAstComparator.php:57-60 | a leading comment is deleted up to the first closer after its opener, and removal goes on after it |
| TwigComparator.LeadingComment | compare-twig-files/src/TwigAstComparator.php:57-60 | a leading comment whose body holds no closer disappears entirely |
| TwigComparator.CommentRemoved | compare-twig-files/src/TwigAstComparator.php:57-60 | a comment after plain text is deleted and the text around it kept |
| TwigComparator.ClosedComment | compare-twig-files/src/TwigAstComparator.php:57-60 | the lazy `.*?` stops at the first closer: the match ends right after the body |
| TwigComparator.RunEnd | compare-twig-files/src/TwigAstComparator.php:63 | the whitespace run `\s+` consumes is maximal |
| TwigComparator.CollapseFrom | compare-twig-files/src/TwigAstComparator.php:63 | the result is single-spaced, keeps every non-whitespace character in order, is empty only for empty input, and starts with whitespace exactly where the input does |
| TwigComparator.TrimStart | compare-twig-files/src/TwigAstComparator.php:64 | `trim` strips every leading stripped character and stops at the first other one |
| TwigComparator.TrimEnd | compare-twig-files/src/TwigAstComparator.php:64 | `trim` strips every trailing stripped character and stops at the last other one |
| TwigComparator.Trim | compare-twig-files/src/TwigAstComparator.php:64 | the result is a slice of the input with only stripped characters cut at each end, and neither starts nor ends with one |
| TwigComparator.NormalizedShape | compare-twig-files/src/TwigAstComparator.php:54-67 | a normalised template has no whitespace at either end and every whitespace run in it is one plain space |
| TwigComparator.CollapseKeepsText | compare-twig-files/src/TwigAstComparator.php:63 | collapsing whitespace keeps every other character, in order |
| TwigComparator.TwigCommentIgnored | compare-twig-files/src/TwigAstComparator.php:54-67 | a Twig comment after plain text normalises away, whatever it holds |
| TwigComparator.CompareNodes | compare-twig-files/src/TwigAstComparator.php:79-105 | equal nodes have the same class and child count, and every key of the first has a child in the second |
| TwigComparator.CompareReflexive | compare-twig-files/src/TwigAstComparator.php:79-105 | every tree compares equal to itself |
| TwigComparator.CompareSymmetric | compare-twig-files/src/TwigAstComparator.php:79-105 | the tree comparison is symmetric, since equal counts make the key check go both ways |
| TwigComparator.CompareTransitive | compare-twig-files/src/TwigAstComparator.php:79-105 | the tree comparison is transitive |
| TwigComparator.SameTextEquivalent | compare-twig-files/src/TwigAstComparator.php:38-41 | templates with the same normalised text are equivalent, whatever the parser does |
| TwigComparator.DifferentTextNeedsTrees | compare-twig-files/src/TwigAstComparator.php:43-51 | templates with different normalised texts are equivalent exactly when both parse and their trees compare equal; a parse failure makes them different |
| TwigComparator.ContentsSymmetric | compare-twig-files/src/TwigAstComparator.php:32-52 | template equivalence is symmetric |
| TwigComparator.CommentedEquivalent | compare-twig-files/src/TwigAstComparator.php:32-60 | adding a Twig comment to a template leaves it equivalent to the original |
| LlmClient.FirstPrefix | aicoder/llm/api_client.py:37-41 | the inner loop stops at the first prefix the model name starts with, and finds none exactly when no prefix matches |
| LlmClient.FirstMatch | aicoder/llm/api_client.py:36-43 | the outer loop stops at the first provider with a matching prefix, and finds none exactly when no provider has one |
| LlmClient.ConfigNamed | aicoder/llm/api_client.py:57 | the provider entry found by name has that name, and none is found only when no entry has it |
| LlmClient.ValidPrefixes | aicoder/llm/api_client.py:46-50 | the listed prefixes include every prefix of every provider |
| LlmClient.MessageNamesPrefix | aicoder/llm/api_client.py:51-54 | the missing-prefix message names each prefix of the list it is given |
| LlmClient.MessageListsEveryPrefix | aicoder/llm/api_client.py:45-54 | the missing-prefix message names every prefix of every provider |
| LlmClient.ListedPrefixes | aicoder/llm/api_client.py:13-28 | the valid prefixes are `openrouter/`, `openai/` and `deepseek/`, in declaration order |
| LlmClient.CheckKey | aicoder/llm/api_client.py:70-76 | a key passes exactly when it is present, non-empty and starts with the provider's key prefix; a missing or empty key is reported as missing before any format check |
| LlmClient.Connect | aicoder/llm/api_client.py:30-76 | a built client's model is the input without one provider's prefix, its key is non-empty, and the missing-prefix error is raised exactly when no prefix matches |
| LlmClient.ProviderOfPrefix | aicoder/llm/api_client.py:13-43 | a model name carrying a provider's prefix selects that provider |
| LlmClient.BaseUrls | aicoder/llm/api_client.py:13-28 | openrouter has no base URL; openai and deepseek have their own endpoints |
| LlmClient.ConfigOfProvider | aicoder/llm/api_client.py:56-59 | looking up the selected provider's name gives back its own entry |
| LlmClient.LLMClient.constructor | aicoder/llm/api_client.py:30-33 | the model is the input and no provider, key or base URL is set |
| LlmClient.LLMClient.SelectProvider | aicoder/llm/api_client.py:35-43 | the nested loops set the first matching provider and strip its prefix once from the model, and leave both unchanged when nothing matches |
| LlmClient.LLMClient.SetCredentials | aicoder/llm/api_client.py:65-67 | the key and base URL are the adapter's, and model and provider are kept |
| LlmClient.NewClient | aicoder/llm/api_client.py:30-76 | building the client step by step gives exactly the session or the error `Connect` specifies |
| Profiles.AliasesTable | aicoder/profiles.py:37-51 | the aliases are the parsed mapping, and empty whenever the file is missing, unreadable or not a mapping |
| Profiles.ProfilesTable | aicoder/profiles.py:53-76 | the table is the mapping under the top-level `profiles` key, and empty for every other outcome |
| Profiles.ResolveModel | aicoder/profiles.py:99-116 | only the model entry can change, and only to the target of the alias it names; a truthy model that is not a string raises |
| Profiles.Lookup | aicoder/profiles.py:79-128 | a missing or falsy profile gives `None`; a truthy profile that is not a dict raises; otherwise the result is the profile with its model resolved |
| Profiles.AliasResolved | aicoder/profiles.py:97-103 | a profile whose model names an alias comes back with the alias target as model and every other entry as stored |
| Profiles.DirectModelKept | aicoder/profiles.py:105-116 | a model that is not an alias, or a missing or empty model, leaves the profile as stored |
| Profiles.StrategyIgnored | aicoder/profiles.py:119-128 | the strategy entry never changes the outcome and is handed back as stored |
| Profiles.OneLevelOfAliases | aicoder/profiles.py:100-103 | an alias whose target is itself an alias name is not followed further |
| Profiles.ProfileLoader.constructor | aicoder/profiles.py:29-34 | the aliases are loaded, then the analyzer and commenter tables |
| Profiles.ProfileLoader.LoadProfiles | aicoder/profiles.py:53-76 | the table of one type is set, and the other types and the aliases are kept |
| Profiles.ProfileLoader.GetProfile | aicoder/profiles.py:79-128 | the method's result is the specified lookup on the loader's state, which it does not change |
| Profiles.ProfileLoader.GetAvailableProfiles | aicoder/profiles.py:131-138 | every stored name of that type is listed and no other; a name not listed is not found; a listed name is found unless its profile is falsy |
| ByteSize.Digits | aicoder/cli/util.py:14 | `str(n)` is a non-empty string of decimal digits |
| ByteSize.DigitsRoundTrip | aicoder/cli/util.py:14 | reading `str(n)` back gives `n` |
| ByteSize.DigitsNoLeadingZero | aicoder/cli/util.py:14 | `str(n)` starts with `0` only for zero |
| ByteSize.GroupedDigits | aicoder/cli/util.py:14 | the comma-grouped form without its commas is `str(n)` |
| ByteSize.GroupedSmall | aicoder/cli/util.py:14 | numbers below 1000 carry no comma |
| ByteSize.FormatBytes | aicoder/cli/util.py:13-29 | byte counts below 1024 are shown exactly; larger ones as an amount in `[1, 1024)` of the first fitting unit (TB unbounded) whose product with the unit is the size |
| ByteSize.SmallSizeExact | aicoder/cli/util.py:13-14 | below 1024 the text is the sign, the grouped magnitude and ` bytes`, and its digits read back to the magnitude |
| ByteSize.UnitThresholds | aicoder/cli/util.py:16-29 | KB from 1024, MB from 1024^2, GB from 1024^3 and TB from 1024^4 on |
| ByteSize.UnitMonotone | aicoder/cli/util.py:16-29 | a larger size never gets a smaller unit |
| ByteSize.Tenths | aicoder/cli/util.py:18-29 | `.1f` shows the amount to the nearest tenth, a tie going to the even tenth |
| ByteSize.OneDecimalPlace | aicoder/cli/util.py:16-29 | from 1024 bytes on, the text is digits, a point, exactly one digit, a space and the unit, and shows the amount to within 0.05 |
| ByteSize.RoundsUpToUnitSize | aicoder/cli/util.py:16-18 | one byte short of 1024^2 is shown as `1024.0 KB`, because the amount is rounded after the unit is chosen |
| ByteSize.TieToEven | aicoder/cli/util.py:16-18 | 1280 bytes, exactly 1.25 KB, is shown as `1.2 KB` |
| PyStr.Find | phpcomment/utils/patcher_v3.py:90 | `str.find` returns the first occurrence at or after `start`, or -1 exactly when there is none |
| PyStr.CollectMatches | phpcomment/utils/patcher_v3.py:87-94 | the loop of repeated `find` calls from `idx + 1` returns the specified list of matches |
| PyStr.AllMatchesAreOccurrences | phpcomment/utils/patcher_v3.py:87-94 | the collected matches are exactly the occurrences, overlapping ones included |
| PyStr.MatchesFromExact | phpcomment/utils/patcher_v3.py:87-94 | the collected indices are occurrences, increasing, and every occurrence from the start on is collected |
| PyStr.MatchCountDecidesUniqueness | phpcomment/utils/patcher_v3.py:96-99 | no match means no occurrence, and one match means that is the only occurrence |
| PyStr.TwoOccurrencesTwoMatches | phpcomment/utils/patcher_v3.py:98-99 | two distinct occurrences give at least two matches |
| PyStr.CountPositiveIffFound | phpcomment/utils/patcher_v2.py:79-85 | `count` is positive exactly when `find` succeeds |
| PyStr.CountOneMeansOverlapping | phpcomment/utils/patcher_v2.py:84-85 | with a count of one, every occurrence overlaps the first, because `count` skips overlapping occurrences |
| PyStr.ReplaceAllRemovesChar | phpcomment/utils/patcher_v4.py:89 | replacing a character by text without it removes it |
| PyStr.SpliceKeepsOutside | phpcomment/utils/patcher_v3.py:101-104 | `content[:start] + after + content[end:]` has the new length, keeps every character before `start` and after `end` in place (shifted by the length change), and holds `after` in between |
| PyStr.ReplaceFirstStripsPrefix | aicoder/llm/api_client.py:40 | `replace(prefix, "", 1)` on a string that starts with the prefix removes just that prefix |
| PyStr.SplitLinesKeepEndsJoin | phpcomment/utils/patcher_v3.py:41 | `splitlines(keepends=True)` gives non-empty pieces that join back to the text |
| PyStr.SplitLinesKeepEndsOfLines | phpcomment/utils/patcher_v3.py:41 | text made of newline-terminated lines splits back into those lines |
| PyStr.StripLeft | phpcomment/utils/patcher_v3.py:83 | the left strip removes exactly the leading whitespace |
| PyStr.StripRight | phpcomment/utils/patcher_v3.py:83 | the right strip removes exactly the trailing whitespace |
| PyStr.StripEmptyIffAllSpace | phpcomment/utils/patcher_v3.py:83 | `not s.strip()` holds exactly for whitespace-only strings |
| PyStr.Words | phpcomment/utils/patcher_v4.py:206-207 | `str.split()` yields only non-empty words |
| PyStr.TwoWords | phpcomment/utils/patcher_v4.py:206-207 | two words separated by one space split into those two words |
| PatcherV3Example.DiffLinesAreLines | phpcomment/cli/test_patcher_v3.py:13-23 | the diff text splits into its nine lines |
| PatcherV3Example.HeadersMakeNoHunk | phpcomment/cli/test_patcher_v3.py:14-15 | the two file headers alone make no hunk |
| PatcherV3Example.BodyMakesTwoHunks | phpcomment/cli/test_patcher_v3.py:17-22 | the blank line separates the two runs of tagged lines into two hunks |
| PatcherV3Example.DiffHunksAreTheTwoBlocks | phpcomment/cli/test_patcher_v3.py:13-23 | the diff parses into the `hello` hunk and the `goodbye` hunk |
| PatcherV3Example.Hunk1Projects | phpcomment/cli/test_patcher_v3.py:17-19 | the first hunk replaces the `hello` function's two lines with the new `print` line after the same `def` |
| PatcherV3Example.Hunk2Projects | phpcomment/cli/test_patcher_v3.py:21-22 | the second hunk is context only |
| PatcherV3Example.HelloBlockUnique | phpcomment/cli/test_patcher_v3.py:5-11 | the `hello` block occurs once in the original, at its start |
| PatcherV3Example.Hunk1Applies | phpcomment/cli/test_patcher_v3.py:28 | the first hunk turns the original into the expected text |
| PatcherV3Example.GoodbyeBlockUnique | phpcomment/cli/test_patcher_v3.py:9-10 | the `goodbye` block occurs once in the patched text |
| PatcherV3Example.Hunk2Applies | phpcomment/cli/test_patcher_v3.py:28 | the context-only hunk leaves the patched text unchanged |
| PatcherV3Example.FixtureChangesOnlyTheHelloLine | phpcomment/cli/test_patcher_v3.py:25-31 | applying the diff changes only the `print` line of `hello` |

## Left out

- The fuzzy branch of `_find_best_match` (phpcomment/utils/patcher_v4.py:167-191) is the parameter `PatcherV4.FuzzyOracle`. It scores lines with difflib ratios in floating point, so the model does not constrain where it places a hunk.
- SearchReplace.BlockOutcome: the exact result is stated only for blocks whose search text has no regular-expression metacharacter and whose replacement has no backslash. Any other block goes through the parameter `RegexSubn`, which stands for `re.compile` plus `subn`. Regular-expression semantics are outside the model; only "a block that raises or matches nothing is skipped" is proved for such blocks.
- Block extraction assumes, as Python's `re` does here, that `.` with `DOTALL` matches every character.
- `\w` in the opening-fence pattern of `strip_code_block_markers` is taken as ASCII letters, digits and `_`. Python's Unicode word class is wider.
- The Twig tokenizer and parser are the parameter `TwigComparator.Parser`, which returns a tree or nothing when parsing raises.
- A node's children form a map from key to node. The order in which PHP iterates them does not affect `compareNodes`, so it is not modelled.
- `compareFiles` is left out: it only reads two files and checks that they exist.
- All logging, printing and console output is left out, in every engine. None of it changes a result. The one exception kept is the hunk numbers of PatcherV4's console report, which `Report` carries.
- PatcherV4.Patcher.ApplyPatch: the `Report` it returns also carries the failed hunk numbers (`Done.failed`) and the number of the aborting hunk (`Aborted.hunk`), which `apply_patch` only prints; its caller receives the content alone, or the `PatchError` re-raised.
- PatcherV4.Patcher.constructor: Dafny has no default arguments, so Python's defaults `continue_on_error=False` and `fuzzy_match=True` are the separate constructor `Patcher.Default` and the constants `DefaultContinueOnError` and `DefaultFuzzyMatch`.
- File reads and writes are left out. The patchers, my-patch.py (`main`, argument handling, reading the two files), the strategy's temporary file and the profile loader's YAML files all become parameters: contents are passed in and results returned. For the loader, a file that is missing or fails to read or parse is `Unreadable` or `Missing`.
- `yaml.safe_load` values are modelled with string mapping keys and with null, booleans, integers, strings, mappings and lists. Floats, dates and non-string keys are not modelled. In Python, `True == 1` makes those keys coincide.
- Profiles.ProfileLoader.GetAvailableProfiles returns the set of names rather than a list, so the order of the dictionary's keys is not modelled.
- The module-level `profile_loader` instance and the `VALID_STRATEGIES` check are left out. The check only logs, and `Profiles.StrategyIgnored` proves the strategy never changes the result.
- `get_api_credentials` of the provider adapters is the parameter `LlmClient.CredentialSource`, because the adapters' own code is not part of this model. The request-sending methods of `LLMClient` and its timing are left out.
- LlmClient.Capitalize upper-cases only ASCII letters, while Python's `str.capitalize` handles all of Unicode. Only the three ASCII provider names reach it.
- LlmClient.LLMClient.SelectProvider requires the client to have no provider yet. That is the state the constructor leaves, and the only state in which `__init__` runs the loops.
- ByteSize.FormatBytes computes the amounts as exact rationals. Python's float divisions agree with them for every size below 2^53; above that, the float result may differ in the last bits and the model does not follow it.
- Integer widths do not arise: Python integers are unbounded, as are Dafny's.
