/**
 * What `parse_summary_file` builds, described by the positions of the input
 * rather than by the parser's loop. Every line has one of three roles: a
 * separator slot (the line right after a section name), a section opening
 * (a single-field line anywhere else), or content. A file parses exactly
 * when every separator slot holds a separator, and then each section holds
 * the block of content lines that follows the LAST opening of its name, up
 * to the next opening.
 */
module SectionLayout {
  import opened Lines
  import opened Results
  import opened SummaryParser

  /** After reading `prefix`, the next line sits in a separator slot: the last line of `prefix` opened a section. */
  predicate AwaitsSeparator(prefix: seq<Line>)
    decreases |prefix|
  {
    |prefix| > 0 && !AwaitsSeparator(prefix[..|prefix| - 1]) && IsSingleField(prefix[|prefix| - 1])
  }

  /** The line at `i` opens a section. */
  predicate OpensSection(lines: seq<Line>, i: int)
    requires 0 <= i < |lines|
  {
    !AwaitsSeparator(lines[..i]) && IsSingleField(lines[i])
  }

  /** The line at `i` is content of whatever section is open there. */
  predicate IsContentAt(lines: seq<Line>, i: int)
    requires 0 <= i < |lines|
  {
    !AwaitsSeparator(lines[..i]) && !IsSingleField(lines[i])
  }

  /** Every separator slot holds a separator. */
  predicate WellFormed(lines: seq<Line>) {
    forall i :: 0 <= i < |lines| && AwaitsSeparator(lines[..i]) ==> MatchesSeparator(lines[i])
  }

  /** The roles of the lines before `k` do not depend on the lines after it. */
  lemma {:induction false} OpensSectionInPrefix(lines: seq<Line>, k: nat)
    requires k <= |lines|
    ensures forall i :: 0 <= i < k ==> OpensSection(lines[..k], i) == OpensSection(lines, i)
  {
    forall i | 0 <= i < k
      ensures OpensSection(lines[..k], i) == OpensSection(lines, i)
    {
      assert lines[..k][..i] == lines[..i];
    }
  }

  /** The line after a section opening is a separator slot, so it never opens a section itself. */
  lemma {:induction false} SlotAfterOpening(lines: seq<Line>, j: nat)
    requires j + 1 < |lines| && OpensSection(lines, j)
    ensures AwaitsSeparator(lines[..j + 1])
    ensures !OpensSection(lines, j + 1)
  {
    assert lines[..j + 1][..j] == lines[..j];
  }

  /** The position of the last opening of `name`, or -1 when `name` is never opened. */
  function LastOpening(lines: seq<Line>, name: Line): (j: int)
    ensures -1 <= j < |lines|
    ensures 0 <= j ==> OpensSection(lines, j) && lines[j] == name
    ensures forall i :: j < i < |lines| && OpensSection(lines, i) ==> lines[i] != name
    decreases |lines|
  {
    if lines == [] then -1
    else if OpensSection(lines, |lines| - 1) && lines[|lines| - 1] == name then |lines| - 1
    else
      OpensSectionInPrefix(lines, |lines| - 1);
      LastOpening(lines[..|lines| - 1], name)
  }

  /** The position of the last section opening of any name, or -1 when there is none. */
  function LastOpened(lines: seq<Line>): (j: int)
    ensures -1 <= j < |lines|
    ensures 0 <= j ==> OpensSection(lines, j)
    ensures forall i :: j < i < |lines| ==> !OpensSection(lines, i)
    decreases |lines|
  {
    if lines == [] then -1
    else if OpensSection(lines, |lines| - 1) then |lines| - 1
    else
      OpensSectionInPrefix(lines, |lines| - 1);
      LastOpened(lines[..|lines| - 1])
  }

  /** The section that content read after `lines` goes to. */
  function CurrentSection(lines: seq<Line>): Line {
    var j := LastOpened(lines);
    if j < 0 then HEADER_SECTION else lines[j]
  }

  /** The first section opening at or after `from`, or the end of the file. */
  function NextOpening(lines: seq<Line>, from: nat): (e: nat)
    requires from <= |lines|
    ensures from <= e <= |lines|
    ensures e < |lines| ==> OpensSection(lines, e)
    ensures forall i :: from <= i < e ==> !OpensSection(lines, i)
    decreases |lines| - from
  {
    if from == |lines| || OpensSection(lines, from) then from else NextOpening(lines, from + 1)
  }

  /** Where the lines of `name` begin: after the separator slot of its last opening, or at the top of the file. */
  function SectionStart(lines: seq<Line>, name: Line): nat {
    var j := LastOpening(lines, name);
    if j < 0 then 0 else if j + 2 <= |lines| then j + 2 else |lines|
  }

  /** The lines the parser keeps for `name`: from its start up to the next section opening. */
  function SectionBlock(lines: seq<Line>, name: Line): seq<Line> {
    var s := SectionStart(lines, name);
    lines[s..NextOpening(lines, s)]
  }

  /** The state the parser is in after reading `lines`, described position by position. */
  ghost predicate Describes(lines: seq<Line>, st: ParseState) {
    && st.expectSeparator == AwaitsSeparator(lines)
    && st.section == CurrentSection(lines)
    && (forall name :: name in st.sections <==> name == HEADER_SECTION || LastOpening(lines, name) >= 0)
    && (forall name :: name in st.sections ==> st.sections[name] == SectionBlock(lines, name))
  }

  /** A position with nothing but non-openings after it is where the next opening search ends. */
  lemma {:induction false} NextOpeningUnique(lines: seq<Line>, from: nat, e: nat)
    requires from <= e <= |lines|
    requires e < |lines| ==> OpensSection(lines, e)
    requires forall i :: from <= i < e ==> !OpensSection(lines, i)
    ensures NextOpening(lines, from) == e
  {
  }

  /** Appending a line moves the next opening only when there was none before the end. */
  lemma {:induction false} NextOpeningExtend(lines: seq<Line>, from: nat)
    requires 0 < |lines| && from < |lines|
    ensures var p := lines[..|lines| - 1];
            NextOpening(lines, from) ==
              if NextOpening(p, from) < |p| then NextOpening(p, from)
              else if OpensSection(lines, |p|) then |p|
              else |lines|
  {
    var p := lines[..|lines| - 1];
    OpensSectionInPrefix(lines, |p|);
    var e := NextOpening(p, from);
    if e < |p| {
      NextOpeningUnique(lines, from, e);
    } else if OpensSection(lines, |p|) {
      NextOpeningUnique(lines, from, |p|);
    } else {
      NextOpeningUnique(lines, from, |lines|);
    }
  }

  /** The open section was opened last under its own name. */
  lemma {:induction false} CurrentSectionIsLastOpening(lines: seq<Line>)
    ensures LastOpening(lines, CurrentSection(lines)) == LastOpened(lines)
  {
    var l := LastOpened(lines);
    var j := LastOpening(lines, CurrentSection(lines));
    if 0 <= l {
      assert l <= j;
    }
    if 0 <= j {
      assert j <= l;
    }
  }

  /** Well-formedness of a longer file is well-formedness of the shorter one plus its last line. */
  lemma {:induction false} WellFormedExtend(lines: seq<Line>)
    requires 0 < |lines|
    ensures var p := lines[..|lines| - 1];
            WellFormed(lines) <==> WellFormed(p) && (AwaitsSeparator(p) ==> MatchesSeparator(lines[|p|]))
  {
    var p := lines[..|lines| - 1];
    forall i | 0 <= i < |p|
      ensures lines[..i] == p[..i] && lines[i] == p[i]
    {
    }
    if WellFormed(lines) {
      forall i | 0 <= i < |p| && AwaitsSeparator(p[..i])
        ensures MatchesSeparator(p[i])
      {
        assert AwaitsSeparator(lines[..i]);
      }
      assert lines[..|p|] == p;
    }
  }

  /** When the parser is not waiting for a separator, the last line read did not open a section. */
  lemma {:induction false} NoOpeningAtEnd(p: seq<Line>)
    requires !AwaitsSeparator(p)
    ensures forall j :: 0 <= j && j + 1 == |p| ==> !OpensSection(p, j)
  {
  }

  /** When the next-opening search from the start of `name` ends at the same place, the block of `name` is unchanged by the appended line. */
  lemma {:induction false} BlockKept(lines: seq<Line>, name: Line)
    requires 0 < |lines|
    requires SectionStart(lines, name) == SectionStart(lines[..|lines| - 1], name)
    requires NextOpening(lines, SectionStart(lines, name)) == NextOpening(lines[..|lines| - 1], SectionStart(lines, name))
    ensures SectionBlock(lines, name) == SectionBlock(lines[..|lines| - 1], name)
  {
    var p := lines[..|lines| - 1];
    var s := SectionStart(lines, name);
    var e := NextOpening(p, s);
    assert lines[s..e] == p[s..e];
  }

  /** A separator in its slot leaves every section's block as it was. */
  lemma {:induction false} SeparatorKeepsBlock(lines: seq<Line>, name: Line)
    requires 0 < |lines|
    requires AwaitsSeparator(lines[..|lines| - 1])
    ensures !OpensSection(lines, |lines| - 1)
    ensures LastOpening(lines, name) == LastOpening(lines[..|lines| - 1], name)
    ensures SectionBlock(lines, name) == SectionBlock(lines[..|lines| - 1], name)
  {
    var p := lines[..|lines| - 1];
    assert lines[..|p|] == p;
    OpensSectionInPrefix(lines, |p|);
    var j := LastOpening(p, name);
    if 0 <= j && j == |p| - 1 {
      assert SectionBlock(p, name) == [];
      assert SectionBlock(lines, name) == [];
    } else {
      if 0 <= j {
        SlotAfterOpening(p, j);
      }
      var s := SectionStart(p, name);
      assert OpensSection(p, |p| - 1);
      assert s < |p|;
      NextOpeningExtend(lines, s);
      BlockKept(lines, name);
    }
  }

  /** Opening section `x` leaves the blocks of all other names as they were. */
  lemma {:induction false} OpeningKeepsOtherBlock(lines: seq<Line>, name: Line)
    requires 0 < |lines|
    requires !AwaitsSeparator(lines[..|lines| - 1]) && IsSingleField(lines[|lines| - 1])
    requires name != lines[|lines| - 1]
    ensures LastOpening(lines, name) == LastOpening(lines[..|lines| - 1], name)
    ensures SectionBlock(lines, name) == SectionBlock(lines[..|lines| - 1], name)
  {
    var p := lines[..|lines| - 1];
    assert lines[..|p|] == p;
    OpensSectionInPrefix(lines, |p|);
    NoOpeningAtEnd(p);
    var s := SectionStart(p, name);
    assert s == SectionStart(lines, name) && s <= |p|;
    if s < |p| {
      NextOpeningExtend(lines, s);
    }
    BlockKept(lines, name);
  }

  /** A section other than the open one, if it was ever opened, was opened before the open one and its block ends by then. */
  lemma {:induction false} OtherSectionStartsEarlier(p: seq<Line>, name: Line)
    requires name != CurrentSection(p)
    requires name == HEADER_SECTION || LastOpening(p, name) >= 0
    ensures 0 <= LastOpened(p) && SectionStart(p, name) <= LastOpened(p)
  {
    var j := LastOpening(p, name);
    var l := LastOpened(p);
    if 0 <= j {
      assert OpensSection(p, j);
      assert j <= l;
      assert p[j] != p[l];
      SlotAfterOpening(p, j);
      assert SectionStart(p, name) == j + 2;
    }
  }

  /** A content line leaves the blocks of the sections that are not open as they were. */
  lemma {:induction false} ContentKeepsOtherBlock(lines: seq<Line>, name: Line)
    requires 0 < |lines|
    requires !AwaitsSeparator(lines[..|lines| - 1]) && !IsSingleField(lines[|lines| - 1])
    requires name != CurrentSection(lines[..|lines| - 1])
    requires name == HEADER_SECTION || LastOpening(lines[..|lines| - 1], name) >= 0
    ensures SectionBlock(lines, name) == SectionBlock(lines[..|lines| - 1], name)
  {
    var p := lines[..|lines| - 1];
    assert lines[..|p|] == p;
    OtherSectionStartsEarlier(p, name);
    var s := SectionStart(p, name);
    assert NextOpening(p, s) <= LastOpened(p);
    assert !OpensSection(lines, |p|);
    assert LastOpening(lines, name) == LastOpening(p, name);
    NextOpeningExtend(lines, s);
    BlockKept(lines, name);
  }

  /** The open section's block runs from its start to the end of what has been read. */
  lemma {:induction false} OpenBlockRunsToEnd(p: seq<Line>)
    requires !AwaitsSeparator(p)
    ensures SectionStart(p, CurrentSection(p)) <= |p|
    ensures NextOpening(p, SectionStart(p, CurrentSection(p))) == |p|
  {
    CurrentSectionIsLastOpening(p);
    NoOpeningAtEnd(p);
    NextOpeningUnique(p, SectionStart(p, CurrentSection(p)), |p|);
  }

  /** A content line goes to the end of the open section's block. */
  lemma {:induction false} ContentExtendsOpenBlock(lines: seq<Line>)
    requires 0 < |lines|
    requires !AwaitsSeparator(lines[..|lines| - 1]) && !IsSingleField(lines[|lines| - 1])
    ensures var p := lines[..|lines| - 1];
            SectionBlock(lines, CurrentSection(p)) == SectionBlock(p, CurrentSection(p)) + [lines[|p|]]
  {
    var p, x := lines[..|lines| - 1], lines[|lines| - 1];
    assert lines[..|p|] == p;
    assert !OpensSection(lines, |p|);
    var name := CurrentSection(p);
    OpenBlockRunsToEnd(p);
    NoOpeningAtEnd(p);
    var s := SectionStart(p, name);
    assert LastOpening(lines, name) == LastOpening(p, name);
    assert s == SectionStart(lines, name);
    if s < |p| {
      NextOpeningExtend(lines, s);
    }
    assert NextOpening(lines, s) == |lines|;
    assert lines == p + [x];
    assert lines[s..|lines|] == p[s..|p|] + [x];
  }

  /** The separator in a separator slot is dropped and closes the slot. */
  lemma {:induction false} DescribesAfterSeparator(lines: seq<Line>, st: ParseState)
    requires 0 < |lines|
    requires Describes(lines[..|lines| - 1], st)
    requires st.expectSeparator
    ensures Describes(lines, st.(expectSeparator := false))
  {
    var p := lines[..|lines| - 1];
    SeparatorKeepsBlock(lines, HEADER_SECTION);
    assert LastOpened(lines) == LastOpened(p);
    forall name
      ensures LastOpening(lines, name) == LastOpening(p, name)
      ensures SectionBlock(lines, name) == SectionBlock(p, name)
    {
      SeparatorKeepsBlock(lines, name);
    }
  }

  /** A section name opens (or reopens) its section with no lines and opens a separator slot. */
  lemma {:induction false} DescribesAfterOpening(lines: seq<Line>, st: ParseState)
    requires 0 < |lines|
    requires Describes(lines[..|lines| - 1], st)
    requires !st.expectSeparator && IsSingleField(lines[|lines| - 1])
    ensures Describes(lines, ParseState(lines[|lines| - 1], st.sections[lines[|lines| - 1] := []], true))
  {
    var p, x := lines[..|lines| - 1], lines[|lines| - 1];
    assert lines[..|p|] == p;
    assert OpensSection(lines, |p|);
    assert LastOpened(lines) == |p|;
    assert LastOpening(lines, x) == |p|;
    assert SectionBlock(lines, x) == [];
    forall name | name != x
      ensures LastOpening(lines, name) == LastOpening(p, name)
      ensures SectionBlock(lines, name) == SectionBlock(p, name)
    {
      OpeningKeepsOtherBlock(lines, name);
    }
  }

  /** A content line is appended to the open section and nothing else changes. */
  lemma {:induction false} DescribesAfterContent(lines: seq<Line>, st: ParseState)
    requires 0 < |lines|
    requires Describes(lines[..|lines| - 1], st)
    requires st.section in st.sections
    requires !st.expectSeparator && !IsSingleField(lines[|lines| - 1])
    ensures Describes(lines, st.(sections := st.sections[st.section := st.sections[st.section] + [lines[|lines| - 1]]]))
  {
    var p, x := lines[..|lines| - 1], lines[|lines| - 1];
    var sections := st.sections[st.section := st.sections[st.section] + [x]];
    assert lines[..|p|] == p;
    assert !OpensSection(lines, |p|);
    assert !AwaitsSeparator(lines);
    assert LastOpened(lines) == LastOpened(p);
    assert CurrentSection(lines) == CurrentSection(p);
    forall name
      ensures LastOpening(lines, name) == LastOpening(p, name)
      ensures name in sections <==> name == HEADER_SECTION || LastOpening(lines, name) >= 0
    {
    }
    ContentExtendsOpenBlock(lines);
    forall name | name in sections
      ensures sections[name] == SectionBlock(lines, name)
    {
      if name != st.section {
        ContentKeepsOtherBlock(lines, name);
      }
    }
  }

  /** The parser's state after any prefix is the one the positions describe, and it fails exactly on a malformed prefix. */
  lemma {:induction false} RunDescribes(lines: seq<Line>)
    ensures Run(lines).Success? <==> WellFormed(lines)
    ensures Run(lines).Success? ==> Describes(lines, Run(lines).value)
    decreases |lines|
  {
    if lines == [] {
      assert SectionBlock([], HEADER_SECTION) == [];
    } else {
      var p, x := lines[..|lines| - 1], lines[|lines| - 1];
      RunDescribes(p);
      WellFormedExtend(lines);
      if Run(p).Success? {
        var st := Run(p).value;
        if st.expectSeparator {
          if MatchesSeparator(x) {
            DescribesAfterSeparator(lines, st);
          }
        } else if IsSingleField(x) {
          DescribesAfterOpening(lines, st);
        } else {
          DescribesAfterContent(lines, st);
        }
      }
    }
  }

  /** An empty file parses to the single, empty "header" section. */
  lemma ParseEmptyFile()
    ensures ParseSummary([]) == Success(map[HEADER_SECTION := []])
  {
  }

  /** Parsing fails exactly when a line in a separator slot is not a run of hyphens. */
  lemma ParseFailsIffMissingSeparator(lines: seq<Line>)
    ensures ParseSummary(lines).Failure? <==> !WellFormed(lines)
  {
    RunDescribes(lines);
  }

  /** The error points at the first line that should have been a separator, and names the section opened just before it. */
  lemma {:induction false} ParseErrorLocated(lines: seq<Line>, index: nat, section: Line)
    requires ParseSummary(lines) == Failure(MissingSeparator(index, section))
    ensures 0 < index < |lines|
    ensures OpensSection(lines, index - 1) && section == lines[index - 1]
    ensures !MatchesSeparator(lines[index])
    ensures WellFormed(lines[..index])
    decreases |lines|
  {
    var p, x := lines[..|lines| - 1], lines[|lines| - 1];
    assert lines[..|p|] == p;
    OpensSectionInPrefix(lines, |p|);
    if Run(p).Failure? {
      ParseErrorLocated(p, index, section);
      assert p[..index] == lines[..index];
    } else {
      RunDescribes(p);
      assert index == |p|;
      assert OpensSection(p, |p| - 1);
      assert LastOpened(p) == |p| - 1;
    }
  }

  /** The sections are "header" and the names of the lines that open a section; no section name but "header" holds a tab. */
  lemma ParseSectionNames(lines: seq<Line>, sections: Sections)
    requires ParseSummary(lines) == Success(sections)
    ensures HEADER_SECTION in sections
    ensures forall name :: name in sections <==>
              name == HEADER_SECTION || exists i :: 0 <= i < |lines| && OpensSection(lines, i) && lines[i] == name
    ensures forall name :: name in sections && name != HEADER_SECTION ==> TAB !in name
  {
    RunDescribes(lines);
    forall name | name in sections && name != HEADER_SECTION
      ensures exists i :: 0 <= i < |lines| && OpensSection(lines, i) && lines[i] == name
    {
      var j := LastOpening(lines, name);
      assert OpensSection(lines, j) && lines[j] == name;
    }
  }

  /** Every line of a section's block, from its start to the next opening, is a content line. */
  lemma {:induction false} BlockIsContent(lines: seq<Line>, name: Line, i: nat)
    requires SectionStart(lines, name) <= i < NextOpening(lines, SectionStart(lines, name))
    ensures IsContentAt(lines, i)
  {
    var j := LastOpening(lines, name);
    assert !OpensSection(lines, i);
    if 0 < i {
      assert lines[..i][..i - 1] == lines[..i - 1];
      assert AwaitsSeparator(lines[..i]) == OpensSection(lines, i - 1);
    }
    if 0 <= j && j + 1 < |lines| {
      SlotAfterOpening(lines, j);
    }
  }

  /** A line of a section's block holds a tab. */
  lemma {:induction false} BlockLineHasTab(lines: seq<Line>, name: Line, line: Line)
    requires line in SectionBlock(lines, name)
    ensures TAB in line
  {
    var s := SectionStart(lines, name);
    var block := SectionBlock(lines, name);
    var k :| 0 <= k < |block| && block[k] == line;
    BlockIsContent(lines, name, s + k);
  }

  /**
   * Each section holds the block of lines from just after the separator of
   * the LAST opening of its name (the top of the file for "header" when it is
   * never opened) up to the next opening; every line of that block is a content
   * line, and so holds a tab.
   */
  lemma ParseSectionContents(lines: seq<Line>, sections: Sections)
    requires ParseSummary(lines) == Success(sections)
    ensures forall name :: name in sections ==> sections[name] == SectionBlock(lines, name)
    ensures forall name, i :: name in sections && SectionStart(lines, name) <= i < NextOpening(lines, SectionStart(lines, name))
              ==> IsContentAt(lines, i)
    ensures forall name, line :: name in sections && line in sections[name] ==> TAB in line
  {
    RunDescribes(lines);
    forall name, i | name in sections && SectionStart(lines, name) <= i < NextOpening(lines, SectionStart(lines, name))
      ensures IsContentAt(lines, i)
    {
      BlockIsContent(lines, name, i);
    }
    forall name, line | name in sections && line in sections[name]
      ensures TAB in line
    {
      BlockLineHasTab(lines, name, line);
    }
  }

  /** Without a section named "header", the "header" section is every line before the first section opening. */
  lemma ParseHeaderSection(lines: seq<Line>, sections: Sections)
    requires ParseSummary(lines) == Success(sections)
    requires forall i :: 0 <= i < |lines| && OpensSection(lines, i) ==> lines[i] != HEADER_SECTION
    ensures HEADER_SECTION in sections
    ensures sections[HEADER_SECTION] == lines[..NextOpening(lines, 0)]
  {
    RunDescribes(lines);
    assert LastOpening(lines, HEADER_SECTION) == -1;
  }

  /** Reopening a section name discards what it held: everything it keeps comes after the later opening. */
  lemma ReopeningDiscardsEarlierLines(lines: seq<Line>, sections: Sections, i: nat, k: nat)
    requires ParseSummary(lines) == Success(sections)
    requires i < k < |lines| && OpensSection(lines, i) && OpensSection(lines, k) && lines[i] == lines[k]
    ensures lines[i] in sections
    ensures k < SectionStart(lines, lines[i])
    ensures sections[lines[i]] == lines[SectionStart(lines, lines[i])..NextOpening(lines, SectionStart(lines, lines[i]))]
  {
    RunDescribes(lines);
    var name := lines[k];
    var j := LastOpening(lines, name);
    assert k <= j;
    assert name in sections;
    assert sections[name] == SectionBlock(lines, name);
  }
}
