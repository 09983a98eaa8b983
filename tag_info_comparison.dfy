/**
 * The tag-info comparator (`compare_tag_info_files`): every tag-info file
 * after the first must start with the same line as the first, and hold the
 * same lines, first line included, counted with multiplicity, in any order.
 */
module TagInfoComparison {
  import opened Lines

  /** `other` starts with the reference's first line and has the reference's multiset of lines. */
  predicate TagInfoAgrees(reference: seq<Line>, other: seq<Line>) {
    && |reference| > 0
    && |other| > 0
    && other[0] == reference[0]
    && multiset(other) == multiset(reference)
  }

  /** Every file after the first agrees with the first. */
  predicate TagInfoFilesMatch(tagInfoFiles: seq<seq<Line>>) {
    forall i :: 0 < i < |tagInfoFiles| ==> TagInfoAgrees(tagInfoFiles[0], tagInfoFiles[i])
  }

  /**
   * How the comparator stops: an empty file makes `[0]` raise (an IndexError
   * on the first file or on the later one being compared), the first-line
   * assertion (line 118) or the line-count assertion (line 119) fails for a
   * file, or all files pass.
   */
  datatype TagInfoVerdict =
    | TagInfoSame
    | MissingFirstLine(file: nat)
    | FirstLineDiffers(file: nat)
    | LinesDiffer(file: nat)

  /**
   * The comparator as the script runs it: file by file after the first, the
   * first line, then the line counts. With fewer than two files nothing is
   * read and the files pass.
   */
  method CompareTagInfoFiles(tagInfoFiles: seq<seq<Line>>) returns (verdict: TagInfoVerdict)
    ensures verdict.TagInfoSame? <==> TagInfoFilesMatch(tagInfoFiles)
    ensures verdict.MissingFirstLine? ==>
              && verdict.file < |tagInfoFiles|
              && tagInfoFiles[verdict.file] == []
              && (verdict.file == 0 || tagInfoFiles[0] != [])
              && forall j :: 0 < j < verdict.file ==> TagInfoAgrees(tagInfoFiles[0], tagInfoFiles[j])
    ensures verdict.FirstLineDiffers? ==>
              && 0 < verdict.file < |tagInfoFiles|
              && tagInfoFiles[0] != [] && tagInfoFiles[verdict.file] != []
              && tagInfoFiles[verdict.file][0] != tagInfoFiles[0][0]
              && forall j :: 0 < j < verdict.file ==> TagInfoAgrees(tagInfoFiles[0], tagInfoFiles[j])
    ensures verdict.LinesDiffer? ==>
              && 0 < verdict.file < |tagInfoFiles|
              && tagInfoFiles[0] != [] && tagInfoFiles[verdict.file] != []
              && tagInfoFiles[verdict.file][0] == tagInfoFiles[0][0]
              && multiset(tagInfoFiles[verdict.file]) != multiset(tagInfoFiles[0])
              && forall j :: 0 < j < verdict.file ==> TagInfoAgrees(tagInfoFiles[0], tagInfoFiles[j])
  {
    if |tagInfoFiles| < 2 {
      return TagInfoSame;
    }
    var reference := tagInfoFiles[0];
    for i := 1 to |tagInfoFiles|
      invariant forall j :: 0 < j < i ==> TagInfoAgrees(reference, tagInfoFiles[j])
    {
      var tagInfoFile := tagInfoFiles[i];
      if reference == [] {
        return MissingFirstLine(0);
      }
      if tagInfoFile == [] {
        return MissingFirstLine(i);
      }
      if reference[0] != tagInfoFile[0] {
        return FirstLineDiffers(i);
      }
      if multiset(reference) != multiset(tagInfoFile) {
        return LinesDiffer(i);
      }
    }
    return TagInfoSame;
  }

  /** Comparing against the first file is enough: when all match it, any two files agree. */
  lemma TagInfoMatchIsPairwise(tagInfoFiles: seq<seq<Line>>, i: nat, j: nat)
    requires |tagInfoFiles| >= 2 && TagInfoFilesMatch(tagInfoFiles)
    requires i < |tagInfoFiles| && j < |tagInfoFiles|
    ensures TagInfoAgrees(tagInfoFiles[i], tagInfoFiles[j])
  {
    assert TagInfoAgrees(tagInfoFiles[0], tagInfoFiles[1]);
    if i != 0 {
      assert TagInfoAgrees(tagInfoFiles[0], tagInfoFiles[i]);
    }
    if j != 0 {
      assert TagInfoAgrees(tagInfoFiles[0], tagInfoFiles[j]);
    }
  }

  /** A file matches itself exactly when it has a first line. */
  lemma TagInfoMatchesItself(tagInfo: seq<Line>)
    ensures TagInfoFilesMatch([tagInfo, tagInfo]) <==> tagInfo != []
  {
    assert [tagInfo, tagInfo][1] == tagInfo;
  }

  /** `lines` with the lines at 0 and `k` exchanged. */
  function SwapWithFirst(lines: seq<Line>, k: nat): (swapped: seq<Line>)
    requires 0 < k < |lines|
    ensures |swapped| == |lines|
    ensures swapped[0] == lines[k] && swapped[k] == lines[0]
    ensures forall i :: 0 < i < |lines| && i != k ==> swapped[i] == lines[i]
  {
    lines[0 := lines[k]][k := lines[0]]
  }

  /** Exchanging two lines keeps the multiset of lines. */
  lemma {:induction false} SwapKeepsLines(lines: seq<Line>, k: nat)
    requires 0 < k < |lines|
    ensures multiset(SwapWithFirst(lines, k)) == multiset(lines)
  {
    var once := lines[0 := lines[k]];
    assert multiset(once) == multiset(lines) - multiset{lines[0]} + multiset{lines[k]};
    assert once[k] == lines[k];
    assert multiset(once[k := lines[0]]) == multiset(once) - multiset{lines[k]} + multiset{lines[0]};
  }

  /**
   * The first line is checked by position: exchanging it with a different
   * later line keeps the lines as a multiset, yet the files no longer match,
   * and the comparator stops on the first-line check.
   */
  lemma {:induction false} SwappedFirstLineIsCaught(lines: seq<Line>, k: nat)
    requires 0 < k < |lines| && lines[k] != lines[0]
    ensures multiset(SwapWithFirst(lines, k)) == multiset(lines)
    ensures SwapWithFirst(lines, k)[0] != lines[0]
    ensures !TagInfoFilesMatch([lines, SwapWithFirst(lines, k)])
  {
    SwapKeepsLines(lines, k);
    assert [lines, SwapWithFirst(lines, k)][1] == SwapWithFirst(lines, k);
  }

  /** Reordering the lines after the first one, in any file, does not change whether it agrees with a reference. */
  lemma {:induction false} BodyOrderInsensitive(reference: seq<Line>, tagInfo: seq<Line>, reordered: seq<Line>)
    requires |tagInfo| > 0 && |reordered| > 0
    requires reordered[0] == tagInfo[0]
    requires multiset(reordered[1..]) == multiset(tagInfo[1..])
    ensures TagInfoAgrees(reference, reordered) <==> TagInfoAgrees(reference, tagInfo)
    ensures TagInfoAgrees(reordered, reference) <==> TagInfoAgrees(tagInfo, reference)
  {
    assert tagInfo == [tagInfo[0]] + tagInfo[1..];
    assert reordered == [reordered[0]] + reordered[1..];
  }

  /** Hence reordering the body lines of any files leaves the outcome unchanged; an empty file stays empty. */
  lemma {:induction false} TagInfoOrderInsensitive(tagInfoFiles: seq<seq<Line>>, reordered: seq<seq<Line>>)
    requires |reordered| == |tagInfoFiles|
    requires forall i :: 0 <= i < |tagInfoFiles| ==> (tagInfoFiles[i] == [] <==> reordered[i] == [])
    requires forall i :: 0 <= i < |tagInfoFiles| && tagInfoFiles[i] != [] && reordered[i] != [] ==>
               reordered[i][0] == tagInfoFiles[i][0] && multiset(reordered[i][1..]) == multiset(tagInfoFiles[i][1..])
    ensures TagInfoFilesMatch(reordered) <==> TagInfoFilesMatch(tagInfoFiles)
  {
    if 0 < |tagInfoFiles| {
      forall i | 0 < i < |tagInfoFiles|
        ensures TagInfoAgrees(reordered[0], reordered[i]) <==> TagInfoAgrees(tagInfoFiles[0], tagInfoFiles[i])
      {
        if tagInfoFiles[0] != [] && tagInfoFiles[i] != [] {
          BodyOrderInsensitive(reordered[0], tagInfoFiles[i], reordered[i]);
          BodyOrderInsensitive(tagInfoFiles[i], tagInfoFiles[0], reordered[0]);
        }
      }
    }
  }
}
