/** Worked examples: what the parser and the comparators' predicates give on small concrete summary and tag-info files, proved lemma by lemma. */
module Scenarios {
  import opened Lines
  import opened Results
  import opened SummaryParser
  import opened SummaryComparison
  import opened TagInfoComparison

  const RUN_A: seq<Line> := ["x\t1", "SectionFoo", "---", "a\tb", "c\td"]
  const RUN_B: seq<Line> := ["x\t1", "SectionFoo", "---", "c\td", "a\tb"]
  const RUN_C: seq<Line> := ["x\t1", "SectionFoo", "---", "a\tb"]

  /** Reading one more line is one more step of the parser. */
  lemma {:induction false} RunAppend(p: seq<Line>, x: Line)
    ensures Run(p + [x]) == match Run(p)
                            case Failure(e) => Failure(e)
                            case Success(st) => Step(st, x, |p|)
  {
    assert (p + [x])[..|p|] == p;
  }

  /** A "header" line, then the opening of SectionFoo and its separator. */
  lemma {:induction false} ParseOpening()
    ensures Run(["x\t1", "SectionFoo", "---"])
              == Success(ParseState("SectionFoo", map["header" := ["x\t1"], "SectionFoo" := []], false))
  {
    var header: Sections := map["header" := ["x\t1"]];
    var withFoo := header["SectionFoo" := []];
    assert "x\t1"[1] == TAB;
    assert IsHyphenRun("---");

    var p1: seq<Line> := [] + ["x\t1"];
    RunAppend([], "x\t1");
    assert INITIAL_STATE.sections[HEADER_SECTION := ["x\t1"]] == header;
    assert Run(p1) == Success(ParseState("header", header, false));

    var p2 := p1 + ["SectionFoo"];
    RunAppend(p1, "SectionFoo");
    assert Run(p2) == Success(ParseState("SectionFoo", withFoo, true));

    var p3 := p2 + ["---"];
    RunAppend(p2, "---");
    assert p3 == ["x\t1", "SectionFoo", "---"];
  }

  /** The lines of one run: a "header" line, then section SectionFoo with one or two lines. */
  lemma {:induction false} ParseRun(first: Line, second: Line)
    requires TAB in first && TAB in second
    ensures ParseSummary(["x\t1", "SectionFoo", "---", first])
              == Success(map["header" := ["x\t1"], "SectionFoo" := [first]])
    ensures ParseSummary(["x\t1", "SectionFoo", "---", first, second])
              == Success(map["header" := ["x\t1"], "SectionFoo" := [first, second]])
  {
    var withFoo: Sections := map["header" := ["x\t1"], "SectionFoo" := []];
    var p3: seq<Line> := ["x\t1", "SectionFoo", "---"];
    ParseOpening();

    var p4 := p3 + [first];
    RunAppend(p3, first);
    assert withFoo["SectionFoo"] + [first] == [first];
    assert Run(p4) == Success(ParseState("SectionFoo", withFoo["SectionFoo" := [first]], false));

    var p5 := p4 + [second];
    RunAppend(p4, second);
    assert [first] + [second] == [first, second];
    assert withFoo["SectionFoo" := [first]]["SectionFoo" := [first, second]] == withFoo["SectionFoo" := [first, second]];
    assert Run(p5) == Success(ParseState("SectionFoo", withFoo["SectionFoo" := [first, second]], false));

    assert p4 == ["x\t1", "SectionFoo", "---", first];
    assert p5 == ["x\t1", "SectionFoo", "---", first, second];
    assert withFoo["SectionFoo" := [first]] == map["header" := ["x\t1"], "SectionFoo" := [first]];
    assert withFoo["SectionFoo" := [first, second]] == map["header" := ["x\t1"], "SectionFoo" := [first, second]];
  }

  /** Runs A and B list the lines of SectionFoo in opposite orders; run C lacks one of them. */
  lemma ParsedRuns()
    ensures ParseSummary(RUN_A) == Success(map["header" := ["x\t1"], "SectionFoo" := ["a\tb", "c\td"]])
    ensures ParseSummary(RUN_B) == Success(map["header" := ["x\t1"], "SectionFoo" := ["c\td", "a\tb"]])
    ensures ParseSummary(RUN_C) == Success(map["header" := ["x\t1"], "SectionFoo" := ["a\tb"]])
  {
    assert "a\tb"[1] == TAB && "c\td"[1] == TAB;
    ParseRun("a\tb", "c\td");
    ParseRun("c\td", "a\tb");
  }

  /** The parsed runs: reordered lines in a section still match; a missing line does not. */
  lemma {:induction false} ParsedRunsCompare()
    ensures SummariesMatch([map["header" := ["x\t1"], "SectionFoo" := ["a\tb", "c\td"]],
                            map["header" := ["x\t1"], "SectionFoo" := ["c\td", "a\tb"]]])
    ensures !SummariesMatch([map["header" := ["x\t1"], "SectionFoo" := ["a\tb", "c\td"]],
                             map["header" := ["x\t1"], "SectionFoo" := ["a\tb"]]])
  {
    var a: Sections := map["header" := ["x\t1"], "SectionFoo" := ["a\tb", "c\td"]];
    var b: Sections := map["header" := ["x\t1"], "SectionFoo" := ["c\td", "a\tb"]];
    var c: Sections := map["header" := ["x\t1"], "SectionFoo" := ["a\tb"]];
    assert multiset(b["SectionFoo"]) == multiset(a["SectionFoo"]);
    assert SectionsAgree(a, b);
    assert [a, b][1] == b;
    assert |multiset(c["SectionFoo"])| != |multiset(a["SectionFoo"])|;
    assert [a, c][1] == c;
  }

  /** A run whose section lines come out in another order matches; a run missing a line does not. */
  lemma {:induction false} ReorderedRunMatches()
    ensures ParseSummary(RUN_A).Success? && ParseSummary(RUN_B).Success? && ParseSummary(RUN_C).Success?
    ensures SummariesMatch([ParseSummary(RUN_A).value, ParseSummary(RUN_B).value])
    ensures !SummariesMatch([ParseSummary(RUN_A).value, ParseSummary(RUN_C).value])
  {
    ParsedRuns();
    ParsedRunsCompare();
  }

  /** A section name followed by a line that is not hyphens is an error at that line. */
  lemma {:induction false} MissingSeparatorFails()
    ensures ParseSummary(["x\t1", "SectionFoo", "a\tb"]) == Failure(MissingSeparator(2, "SectionFoo"))
  {
    assert "x\t1"[1] == TAB;
    var p1: seq<Line> := [] + ["x\t1"];
    RunAppend([], "x\t1");
    var p2 := p1 + ["SectionFoo"];
    RunAppend(p1, "SectionFoo");
    assert Run(p2).Success? && Run(p2).value.section == "SectionFoo" && Run(p2).value.expectSeparator;
    var p3 := p2 + ["a\tb"];
    RunAppend(p2, "a\tb");
    assert "a\tb"[0] != HYPHEN && "a\tb"[2] != NEWLINE;
    assert !MatchesSeparator("a\tb");
    assert p3 == ["x\t1", "SectionFoo", "a\tb"];
  }

  /** The first line is compared by position: swapping it with the second keeps the lines but fails. */
  lemma {:induction false} SwappedHeaderFails()
    ensures multiset(["H1", "L1", "L2"]) == multiset(["L1", "H1", "L2"])
    ensures !TagInfoFilesMatch([["H1", "L1", "L2"], ["L1", "H1", "L2"]])
  {
    SwappedFirstLineIsCaught(["H1", "L1", "L2"], 1);
    assert SwapWithFirst(["H1", "L1", "L2"], 1) == ["L1", "H1", "L2"];
  }
}
