# Begum sort output comparison, in Dafny

Begum's regression tests compare the outputs of several `Begum sort` runs,
produced beforehand, and check that the runs agree. `tests/compare_sort_outputs.py` does the checking, and its core
has three parts:

- **The summary parser** (`parse_summary_file`) reads a `.summaryCounts`
  report into named sections. Lines start in section `"header"`. A line
  without a tab opens a section of that name and empties it. The line right
  after it must match `^-+$`, or the parser's assertion fails. Every other
  line is appended to the section opened last.
- **The summary comparator** (`compare_summary_files`) checks every later
  parsed report against the first. The section names must be the same set,
  and each section must hold the same lines counted with multiplicity
  (`Counter`), in any order.
- **The tag-info comparator** (`compare_tag_info_files`) checks every later
  `.tagInfo` file against the first. The first lines must be equal, and all
  lines together must be equal as multisets.

The model has six modules, plus a `Results` module holding the success-or-error datatype:

- `Lines` models one line and the two tests applied to it: Python's
  `str.split("\t")` and the separator pattern, including Python's `$` also
  matching before a final newline.
- `SummaryParser` holds the parser's loop as a method, `ParseSummaryFile`,
  proved equal to a step function run over the lines (`Run`, `ParseSummary`).
- `SectionLayout` describes what the parser builds directly from positions
  in the input. Each line has one role: a separator slot, a section opening
  or content. Each section is the block of content that follows the *last*
  opening of its name. This module proves that the parser builds exactly
  that.
- `SummaryComparison` and `TagInfoComparison` hold the comparators' loops as
  methods. Each method's verdict is proved equivalent to a predicate that
  quantifies over all files. Lemmas about those predicates cover order
  insensitivity, self-match, pairwise agreement, and the changes that are
  caught.
- `Scenarios` proves what the definitions give on small concrete reports and
  tag-info files.

A Python `AssertionError` or `IndexError` becomes a value. The parser
returns a `Result` with the error `MissingSeparator`. The comparators return
a verdict datatype that says which check stopped them and on which file.

## Model

| member | source | states |
|---|---|---|
| `SummaryParser.ParseSummaryFile` | tests/compare_sort_outputs.py:18-63 | The loop, with its current section name, its map and its `new_section` flag, returns exactly `ParseSummary` of the lines: the sections, or the first missing separator. |
| `SummaryParser.Step` | tests/compare_sort_outputs.py:49-61 | One pass of the loop body. A line in a separator slot clears the flag if it matches `^-+$`, and otherwise fails naming its index and the open section. A tab-free line opens its section, emptying it, and sets the flag. Any other line is appended to the open section. The open section stays a key of the map. |
| `SummaryParser.Run` | tests/compare_sort_outputs.py:42-61 | The loop's state after a prefix: it starts at `"header"` mapped to `[]` with the flag clear, then takes one `Step` per line and stops at the first failure. The open section is always a key of the map. |
| `SummaryParser.ParseSummary` | tests/compare_sort_outputs.py:18-63 | `parse_summary_file` as a function: the map after the last line, or the first missing separator. |
| `SummaryParser.FailurePersists` | tests/compare_sort_outputs.py:49-51 | Once a prefix fails its separator assertion, the whole file fails with that same error. |
| `Lines.Split` | tests/compare_sort_outputs.py:55 | Python's `line.split("\t")`: at least one piece, and no piece contains a tab. |
| `Lines.IsSingleField` | tests/compare_sort_outputs.py:55 | The test `len(line.split("\t")) == 1`, stated as "no tab in the line"; `SingleFieldIffNoTab` proves the two agree. |
| `Lines.MatchesSeparator` | tests/compare_sort_outputs.py:40-51 | `section_separator.match(line) is not None` for `^-+$`: a non-empty run of hyphens, optionally followed by one final newline. |
| `Lines.SplitCount` | tests/compare_sort_outputs.py:55 | `line.split("\t")` has one more field than the line has tabs. |
| `Lines.JoinSplit` | tests/compare_sort_outputs.py:55 | Splitting on the tab loses nothing: joining the fields with tabs gives back the line. |
| `Lines.SingleFieldIffNoTab` | tests/compare_sort_outputs.py:55 | `len(line.split("\t")) == 1` holds exactly when the line has no tab. |
| `Lines.SeparatorOnSplitLine` | tests/compare_sort_outputs.py:40 | On a line without a newline, `^-+$` matches exactly the non-empty runs of hyphens. |
| `SectionLayout.RunDescribes` | tests/compare_sort_outputs.py:47-61 | The parser succeeds iff every separator slot holds a separator. On success, its state is the one the positions describe: the flag, the open section, the keys and every section's block. |
| `SectionLayout.ParseEmptyFile` | tests/compare_sort_outputs.py:42-43 | An empty file parses to `{"header": []}`. |
| `SectionLayout.ParseFailsIffMissingSeparator` | tests/compare_sort_outputs.py:49-53 | Parsing fails exactly when some line right after a section opening does not match `^-+$`. |
| `SectionLayout.ParseErrorLocated` | tests/compare_sort_outputs.py:49-51 | A failure names the first bad slot. The line before it opens the named section, the line itself is not a separator, and everything before it is well formed. |
| `SectionLayout.ParseSectionNames` | tests/compare_sort_outputs.py:42-59 | `"header"` is always a key. The keys are `"header"` and the lines that open a section, in both directions. Every key but `"header"` is tab-free. |
| `SectionLayout.ParseSectionContents` | tests/compare_sort_outputs.py:55-61 | Each section holds, in input order, the lines from after the separator of its last opening up to the next opening. Each of those lines is content, so no opening line and no separator is stored. Every stored line has a tab. |
| `SectionLayout.ParseHeaderSection` | tests/compare_sort_outputs.py:42-43 | If no section named `"header"` is opened, `"header"` holds the lines before the first opening. |
| `SectionLayout.ReopeningDiscardsEarlierLines` | tests/compare_sort_outputs.py:56-57 | When a name is opened twice, its section holds only lines that come after the later opening. |
| `SectionLayout.LastOpening` | tests/compare_sort_outputs.py:56-57 | Returns the position of the last line that opens the given name, or -1 when the name is never opened. |
| `SectionLayout.NextOpening` | tests/compare_sort_outputs.py:55-61 | Returns the first opening at or after a position, with no opening before it. |
| `SummaryComparison.SectionsAgree` | tests/compare_sort_outputs.py:86-92 | The assertions of lines 87 and 92 for one file: the same set of section names as the reference, and for each section the same `Counter` of lines. |
| `SummaryComparison.SummariesMatch` | tests/compare_sort_outputs.py:86-92 | Every file after the first agrees with the first. |
| `SummaryComparison.CompareSummaryFiles` | tests/compare_sort_outputs.py:66-94 | Returns success iff there is a file and every later file has the first file's section names and, per section, its multiset of lines. Otherwise it reports the first file whose names differ, or a section and the first file whose line counts for it differ, after all names agreed. With no files it reports the `IndexError` of line 89. |
| `SummaryComparison.MatchIsPairwise` | tests/compare_sort_outputs.py:86-92 | When all files match the first, any two files agree. |
| `SummaryComparison.SummaryMatchesItself` | tests/compare_sort_outputs.py:86-92 | `[p, p]` always matches. |
| `SummaryComparison.SummaryOrderInsensitive` | tests/compare_sort_outputs.py:89-92 | Reordering the lines within any sections of any files leaves the outcome unchanged. |
| `SummaryComparison.MoveLine` | tests/compare_sort_outputs.py:89-92 | Moving one line between sections keeps the section names and changes the two sections' multisets by exactly that line; every other section is unchanged. |
| `SummaryComparison.MovedLineIsCaught` | tests/compare_sort_outputs.py:89-92 | A report with one line moved to another section no longer matches the original, although its section names are unchanged: the section the line left counts differently. |
| `TagInfoComparison.TagInfoAgrees` | tests/compare_sort_outputs.py:118-119 | The assertions of lines 118 and 119 for one file: both files have a first line, the first lines are equal, and the `Counter`s of all lines are equal. |
| `TagInfoComparison.TagInfoFilesMatch` | tests/compare_sort_outputs.py:117-119 | Every file after the first agrees with the first. |
| `TagInfoComparison.CompareTagInfoFiles` | tests/compare_sort_outputs.py:97-121 | Returns success iff every later file has the first file's first line and its multiset of lines. Otherwise it reports the first failing file and why: an empty first or later file (`IndexError`), a different first line, or different line counts. |
| `TagInfoComparison.TagInfoMatchIsPairwise` | tests/compare_sort_outputs.py:117-119 | With at least two files, when all match the first, any two agree. |
| `TagInfoComparison.TagInfoMatchesItself` | tests/compare_sort_outputs.py:117-119 | `[f, f]` matches exactly when `f` has a first line. |
| `TagInfoComparison.SwapWithFirst` | tests/compare_sort_outputs.py:118 | Exchanging the first line with the line at `k` changes only those two positions. |
| `TagInfoComparison.SwapKeepsLines` | tests/compare_sort_outputs.py:119 | That exchange keeps the multiset of lines. |
| `TagInfoComparison.SwappedFirstLineIsCaught` | tests/compare_sort_outputs.py:118-119 | Swapping the first line with a different later line keeps the multiset but fails the match, on the first-line check. |
| `TagInfoComparison.BodyOrderInsensitive` | tests/compare_sort_outputs.py:118-119 | Reordering the lines after the first does not change whether a file agrees with another, on either side. |
| `TagInfoComparison.TagInfoOrderInsensitive` | tests/compare_sort_outputs.py:117-119 | Reordering the lines after the first, in any files (an empty file staying empty), leaves the outcome unchanged. |
| `Scenarios.ParseRun` | tests/compare_sort_outputs.py:42-61 | A concrete report with a header line, one section name, its separator and one or two content lines parses to the expected map. |
| `Scenarios.ReorderedRunMatches` | tests/compare_sort_outputs.py:86-92 | Two concrete parsed runs that list a section's lines in opposite orders match; a run missing one line does not. |
| `Scenarios.MissingSeparatorFails` | tests/compare_sort_outputs.py:49-51 | A concrete report whose section name is followed by a content line fails at that line, naming that section. |
| `Scenarios.SwappedHeaderFails` | tests/compare_sort_outputs.py:118-119 | Concrete tag-info files with the first two lines swapped have the same lines but do not match. |

## Left out

- `text_file` (reading a file and splitting it into lines) is I/O. Files are given to the model as sequences of lines.
- `parse_cli_arguments` and `main` (argument parsing, matching the file counts, the at-least-two-files check, the printed messages) are the command line, not the comparison.
- `tests/begum_sort_regression_test.py` is not part of this model. It collects the `.summaryCounts` and `.tagInfo` files already under a results directory, checks that their counts are equal, and calls `compare_results`, which `compare_sort_outputs.py` does not define.
- The `print` calls in both comparators are not modelled.
- The assertion messages are not modelled. A failure is a structured value instead: the parser's error also carries the line index and the section, and each comparator verdict names the check and the file that failed.
- SummaryComparison.CompareSummaryFiles: Python walks the reference file's sections in dictionary insertion order, which a Dafny map does not keep. So when several sections differ, the model reports *some* differing section, not necessarily the first in file order.
- CompareSummaryFiles and CompareTagInfoFiles accept any number of files, as the functions themselves do. The two-file minimum is checked only by the command line. With no files the summary comparator raises `IndexError`, and fewer than two tag-info files always pass.
- Once at least two files are given, an empty first file (`tag_info_files[0][0]`) or an empty later file (`tag_info_file[0]`) raises `IndexError` at line 118. The model reports it as the verdict `MissingFirstLine(file)` rather than as a separate kind of error.
