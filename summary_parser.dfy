/**
 * The summary-file parser (`parse_summary_file`): splits the lines of a
 * `.summaryCounts` report into named sections. A single-field line opens a
 * section of that name and must be followed by a line of hyphens; every
 * other line belongs to the section opened last, or to "header" before any
 * section is opened.
 */
module SummaryParser {
  import opened Lines
  import opened Results

  /** Section name to the lines of that section, in file order. */
  type Sections = map<Line, seq<Line>>

  /** The section that collects the lines before the first section name. */
  const HEADER_SECTION: Line := "header"

  /** The line at `index` follows the opening of `section` but is not a separator. */
  datatype ParseError = MissingSeparator(index: nat, section: Line)

  /** The parser's variables between two lines: the open section, the sections so far, and the "new section" flag. */
  datatype ParseState = ParseState(section: Line, sections: Sections, expectSeparator: bool)

  const INITIAL_STATE: ParseState := ParseState(HEADER_SECTION, map[HEADER_SECTION := []], false)

  /** One turn of the parser's loop: the line at `index` read in state `st`. */
  function Step(st: ParseState, line: Line, index: nat): (r: Result<ParseState, ParseError>)
    requires st.section in st.sections
    ensures r.Success? ==> r.value.section in r.value.sections
  {
    if st.expectSeparator then
      if MatchesSeparator(line) then Success(st.(expectSeparator := false))
      else Failure(MissingSeparator(index, st.section))
    else if IsSingleField(line) then
      Success(ParseState(line, st.sections[line := []], true))
    else
      Success(st.(sections := st.sections[st.section := st.sections[st.section] + [line]]))
  }

  /** The parser's state after reading all of `lines`, or the first error it meets. */
  function Run(lines: seq<Line>): (r: Result<ParseState, ParseError>)
    ensures r.Success? ==> r.value.section in r.value.sections
    decreases |lines|
  {
    if lines == [] then Success(INITIAL_STATE)
    else
      match Run(lines[..|lines| - 1])
      case Failure(e) => Failure(e)
      case Success(st) => Step(st, lines[|lines| - 1], |lines| - 1)
  }

  /** What `parse_summary_file` returns for `lines`, or the assertion it fails. */
  function ParseSummary(lines: seq<Line>): Result<Sections, ParseError> {
    match Run(lines)
    case Success(st) => Success(st.sections)
    case Failure(e) => Failure(e)
  }

  /** Once a prefix of the file fails, the whole file fails with the same error. */
  lemma {:induction false} FailurePersists(lines: seq<Line>, k: nat)
    requires k <= |lines|
    requires Run(lines[..k]).Failure?
    ensures Run(lines) == Run(lines[..k])
    decreases |lines|
  {
    if k < |lines| {
      var shorter := lines[..|lines| - 1];
      assert shorter[..k] == lines[..k];
      FailurePersists(shorter, k);
    } else {
      assert lines[..k] == lines;
    }
  }

  /** The parser as the script runs it: one pass over the lines, updating the open section, the flag and the map. */
  method ParseSummaryFile(rawSummaryFile: seq<Line>) returns (r: Result<Sections, ParseError>)
    ensures r == ParseSummary(rawSummaryFile)
  {
    var sectionName := HEADER_SECTION;
    var parsedSummaryFile: Sections := map[sectionName := []];
    var newSection := false;
    for i := 0 to |rawSummaryFile|
      invariant Run(rawSummaryFile[..i]) == Success(ParseState(sectionName, parsedSummaryFile, newSection))
    {
      var line := rawSummaryFile[i];
      assert rawSummaryFile[..i + 1][..i] == rawSummaryFile[..i];
      if newSection {
        if !MatchesSeparator(line) {
          FailurePersists(rawSummaryFile, i + 1);
          return Failure(MissingSeparator(i, sectionName));
        }
        newSection := false;
        continue;
      }
      if IsSingleField(line) {
        sectionName := line;
        parsedSummaryFile := parsedSummaryFile[sectionName := []];
        newSection := true;
        continue;
      }
      parsedSummaryFile := parsedSummaryFile[sectionName := parsedSummaryFile[sectionName] + [line]];
    }
    assert rawSummaryFile[..|rawSummaryFile|] == rawSummaryFile;
    return Success(parsedSummaryFile);
  }
}
