/**
 * The summary comparator (`compare_summary_files`): every parsed summary
 * file after the first must have the same section names as the first, and
 * for each section the same lines counted with multiplicity, in any order.
 */
module SummaryComparison {
  import opened Lines
  import opened SummaryParser

  /** `other` has the reference's section names and, section by section, the same multiset of lines. */
  predicate SectionsAgree(reference: Sections, other: Sections) {
    && other.Keys == reference.Keys
    && forall name :: name in reference ==> multiset(other[name]) == multiset(reference[name])
  }

  /** Every file after the first agrees with the first. */
  predicate SummariesMatch(summaryFiles: seq<Sections>) {
    forall i :: 0 < i < |summaryFiles| ==> SectionsAgree(summaryFiles[0], summaryFiles[i])
  }

  /**
   * How the comparator stops: with no files at all, reading the first file's
   * sections raises an IndexError (line 89); otherwise the section-name check
   * fails for a file (line 87), the line-count check fails for a section and
   * a file (line 92), or all files pass.
   */
  datatype SummaryVerdict =
    | SummariesSame
    | NoSummaryFiles
    | SectionSetDiffers(file: nat)
    | SectionContentDiffers(section: Line, file: nat)

  /**
   * The comparator as the script runs it: first the section names of every
   * later file, then, section by section of the first file, the line counts
   * of every later file. A dictionary's sections come in insertion order,
   * which a map does not keep, so the section checked first is any one.
   */
  method CompareSummaryFiles(summaryFiles: seq<Sections>) returns (verdict: SummaryVerdict)
    ensures verdict.SummariesSame? <==> summaryFiles != [] && SummariesMatch(summaryFiles)
    ensures verdict.NoSummaryFiles? <==> summaryFiles == []
    ensures verdict.SectionSetDiffers? ==>
              && 0 < verdict.file < |summaryFiles|
              && summaryFiles[verdict.file].Keys != summaryFiles[0].Keys
              && forall j :: 0 < j < verdict.file ==> summaryFiles[j].Keys == summaryFiles[0].Keys
    ensures verdict.SectionContentDiffers? ==>
              && (forall j :: 0 < j < |summaryFiles| ==> summaryFiles[j].Keys == summaryFiles[0].Keys)
              && 0 < verdict.file < |summaryFiles|
              && verdict.section in summaryFiles[0]
              && multiset(summaryFiles[verdict.file][verdict.section]) != multiset(summaryFiles[0][verdict.section])
              && forall j :: 0 < j < verdict.file ==>
                   multiset(summaryFiles[j][verdict.section]) == multiset(summaryFiles[0][verdict.section])
  {
    if summaryFiles == [] {
      return NoSummaryFiles;
    }
    var reference := summaryFiles[0];
    for i := 1 to |summaryFiles|
      invariant forall j :: 0 < j < i ==> summaryFiles[j].Keys == reference.Keys
    {
      if summaryFiles[i].Keys != reference.Keys {
        return SectionSetDiffers(i);
      }
    }
    var remaining := reference.Keys;
    while remaining != {}
      invariant remaining <= reference.Keys
      invariant forall name, j :: name in reference && name !in remaining && 0 < j < |summaryFiles| ==>
                  multiset(summaryFiles[j][name]) == multiset(reference[name])
      decreases remaining
    {
      var sectionName :| sectionName in remaining;
      var referenceCounter := multiset(reference[sectionName]);
      for i := 1 to |summaryFiles|
        invariant forall j :: 0 < j < i ==> multiset(summaryFiles[j][sectionName]) == referenceCounter
      {
        if multiset(summaryFiles[i][sectionName]) != referenceCounter {
          return SectionContentDiffers(sectionName, i);
        }
      }
      remaining := remaining - {sectionName};
    }
    return SummariesSame;
  }

  /** Comparing against the first file is enough: when all match it, any two files agree. */
  lemma MatchIsPairwise(summaryFiles: seq<Sections>, i: nat, j: nat)
    requires SummariesMatch(summaryFiles)
    requires i < |summaryFiles| && j < |summaryFiles|
    ensures SectionsAgree(summaryFiles[i], summaryFiles[j])
  {
    if i != 0 {
      assert SectionsAgree(summaryFiles[0], summaryFiles[i]);
    }
    if j != 0 {
      assert SectionsAgree(summaryFiles[0], summaryFiles[j]);
    }
  }

  /** A parsed file always matches itself. */
  lemma SummaryMatchesItself(sections: Sections)
    ensures SummariesMatch([sections, sections])
  {
  }

  /**
   * Reordering the lines inside sections, in any file, does not change the
   * outcome: only each section's multiset of lines is looked at.
   */
  lemma SummaryOrderInsensitive(summaryFiles: seq<Sections>, reordered: seq<Sections>)
    requires |reordered| == |summaryFiles|
    requires forall i :: 0 <= i < |summaryFiles| ==> reordered[i].Keys == summaryFiles[i].Keys
    requires forall i, name :: 0 <= i < |summaryFiles| && name in summaryFiles[i] ==>
               multiset(reordered[i][name]) == multiset(summaryFiles[i][name])
    ensures SummariesMatch(reordered) <==> SummariesMatch(summaryFiles)
  {
    if 0 < |summaryFiles| {
      forall i | 0 < i < |summaryFiles|
        ensures SectionsAgree(reordered[0], reordered[i]) <==> SectionsAgree(summaryFiles[0], summaryFiles[i])
      {
        assert reordered[0].Keys == summaryFiles[0].Keys;
        assert reordered[i].Keys == summaryFiles[i].Keys;
      }
    }
  }

  /** `sections` with the line at `k` of section `from` moved to the end of section `to`. */
  function MoveLine(sections: Sections, from: Line, k: nat, to: Line): (moved: Sections)
    requires from in sections && to in sections && from != to
    requires k < |sections[from]|
    ensures moved.Keys == sections.Keys
    ensures multiset(moved[from]) + multiset{sections[from][k]} == multiset(sections[from])
    ensures multiset(moved[to]) == multiset(sections[to]) + multiset{sections[from][k]}
    ensures forall name :: name in sections && name != from && name != to ==> moved[name] == sections[name]
  {
    var line := sections[from][k];
    var source := sections[from];
    assert source == source[..k] + [line] + source[k + 1..];
    sections[from := source[..k] + source[k + 1..]][to := sections[to] + [line]]
  }

  /**
   * Moving a line into another section is caught, even though the file as a
   * whole keeps the same lines: the section it left no longer counts the
   * same, and the comparator fails on a section's lines, not on the names.
   */
  lemma {:induction false} MovedLineIsCaught(sections: Sections, from: Line, k: nat, to: Line)
    requires from in sections && to in sections && from != to
    requires k < |sections[from]|
    ensures !SummariesMatch([sections, MoveLine(sections, from, k, to)])
    ensures MoveLine(sections, from, k, to).Keys == sections.Keys
    ensures multiset(MoveLine(sections, from, k, to)[from]) != multiset(sections[from])
  {
    var moved := MoveLine(sections, from, k, to);
    assert |multiset(moved[from])| + 1 == |multiset(sections[from])|;
    assert !SectionsAgree(sections, moved);
    assert [sections, moved][0] == sections && [sections, moved][1] == moved;
  }
}
