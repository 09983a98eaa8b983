/** Success-or-error values, standing in for the assertions the scripts raise. */
module Results {

  datatype Result<T, E> = Success(value: T) | Failure(error: E)
}

/**
 * Lines of the text files Begum sort writes, and the two tests the summary
 * parser applies to a single line: "has exactly one tab-separated field" and
 * "is a section separator".
 */
module Lines {

  /** One line of a text file, without its line terminator. */
  type Line = string

  const TAB: char := '\t'
  const HYPHEN: char := '-'
  const NEWLINE: char := '\n'

  /**
   * The pieces of `s` between occurrences of `sep`, as Python's
   * `str.split(sep)` returns them: at least one piece, and no piece contains
   * the separator.
   */
  function Split(s: string, sep: char): (fields: seq<string>)
    ensures |fields| > 0
    ensures forall f :: f in fields ==> sep !in f
  {
    if s == [] then [[]]
    else
      var rest := Split(s[1..], sep);
      if s[0] == sep then [[]] + rest
      else [[s[0]] + rest[0]] + rest[1..]
  }

  /** There is one more piece than there are separators. */
  lemma {:induction false} SplitCount(s: string, sep: char)
    ensures |Split(s, sep)| == multiset(s)[sep] + 1
  {
    if s != [] {
      SplitCount(s[1..], sep);
      assert s == [s[0]] + s[1..];
    }
  }

  /** Glues pieces back together with `sep` between them (Python's `sep.join`). */
  function Join(fields: seq<string>, sep: char): string
    requires |fields| > 0
  {
    if |fields| == 1 then fields[0] else fields[0] + [sep] + Join(fields[1..], sep)
  }

  /** Splitting loses nothing: joining the pieces gives back the line. */
  lemma {:induction false} JoinSplit(s: string, sep: char)
    ensures Join(Split(s, sep), sep) == s
  {
    if s != [] {
      var rest := Split(s[1..], sep);
      JoinSplit(s[1..], sep);
      if s[0] == sep {
        JoinCons([], rest, sep);
      } else {
        JoinExtendFirst(s[0], rest, sep);
      }
      assert s == [s[0]] + s[1..];
    }
  }

  /** Joining a new first piece in front puts a separator before the rest. */
  lemma JoinCons(first: string, rest: seq<string>, sep: char)
    requires |rest| > 0
    ensures Join([first] + rest, sep) == first + [sep] + Join(rest, sep)
  {
    assert ([first] + rest)[1..] == rest;
  }

  /** Prefixing the first piece with a character prefixes the joined line with it. */
  lemma JoinExtendFirst(c: char, fields: seq<string>, sep: char)
    requires |fields| > 0
    ensures Join([[c] + fields[0]] + fields[1..], sep) == [c] + Join(fields, sep)
  {
    var longer := [[c] + fields[0]] + fields[1..];
    if |fields| > 1 {
      assert longer[1..] == fields[1..];
    }
  }

  /**
   * The test that makes a line a section name: it has no tab, which is
   * `len(line.split("\t")) == 1` (see SingleFieldIffNoTab).
   */
  predicate IsSingleField(line: Line) {
    TAB !in line
  }

  /** Python's `len(line.split("\t")) == 1` holds exactly of the lines without a tab. */
  lemma SingleFieldIffNoTab(line: Line)
    ensures |Split(line, TAB)| == 1 <==> IsSingleField(line)
  {
    SplitCount(line, TAB);
    assert TAB in line <==> TAB in multiset(line);
  }

  /** Non-empty and made of hyphens only. */
  predicate IsHyphenRun(s: string) {
    |s| > 0 && forall i :: 0 <= i < |s| ==> s[i] == HYPHEN
  }

  /**
   * `re.match("^-+$", line)`: a run of hyphens, where Python's `$` also
   * matches just before a newline that ends the string.
   */
  predicate MatchesSeparator(line: Line) {
    || IsHyphenRun(line)
    || (|line| >= 2 && line[|line| - 1] == NEWLINE && IsHyphenRun(line[..|line| - 1]))
  }

  /** On a line without a newline, as `str.splitlines` produces, the pattern means "non-empty, all hyphens". */
  lemma SeparatorOnSplitLine(line: Line)
    requires NEWLINE !in line
    ensures MatchesSeparator(line) <==> IsHyphenRun(line)
  {
    if |line| >= 2 {
      assert line[|line| - 1] in line;
    }
  }
}
