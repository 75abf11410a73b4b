/** Sections of a Lime source: a start and an end location, and the lines they cover. */
module Sections {
  import opened Wrappers
  import opened Sources

  /** A location in a source: a 1-based line and a 0-based column. */
  datatype SourceLocation = SourceLocation(line: Int32, column: Int32)

  /** The location of the first character of any source. */
  const First: SourceLocation := SourceLocation(1, 0)

  datatype SourceSection = SourceSection(source: Source, start: SourceLocation, end: SourceLocation)

  /**
   * `SourceSection.getLines()`: the lines `start.line` through `end.line`, both included,
   * that is `end.line + 1 - start.line` lines, counted in a 32-bit `Int`, asked of the source
   * from `start.line`.
   */
  function SectionLines(s: SourceSection): (r: Result<seq<string>, SubListError>)
  {
    GetLinesFrom(s.source, s.start.line, ToInt32(s.end.line + 1 - s.start.line))
  }

  /** The count wraps back: the sub-list runs from `start.line - 1`, wrapped, to exactly `end.line`. */
  lemma SectionBounds(s: SourceSection)
    ensures SectionLines(s) == SubList(Lines(s.source.content), ToInt32(s.start.line - 1), s.end.line)
  {
    var n := ToInt32(s.end.line + 1 - s.start.line);
    ToInt32Congruent(s.start.line - 1 + n, s.end.line);
    assert ToInt32(s.end.line) == s.end.line;
  }

  /** When the section's lines exist, they are exactly the source lines from `start.line` to `end.line`. */
  lemma SectionLinesRange(s: SourceSection)
    ensures SectionLines(s).Success? <==>
              || (1 <= s.start.line <= s.end.line + 1 && s.end.line <= |Lines(s.source.content)|)
              || (s.start.line == -TwoTo31 && s.end.line == TwoTo31 - 1 && |Lines(s.source.content)| >= TwoTo31 - 1)
    ensures SectionLines(s).Success? && 1 <= s.start.line ==>
              SectionLines(s).value == Lines(s.source.content)[s.start.line - 1 .. s.end.line]
    ensures SectionLines(s).Success? && 1 <= s.start.line ==>
              |SectionLines(s).value| == s.end.line + 1 - s.start.line
    ensures SectionLines(s).Success? && s.start.line < 1 ==> SectionLines(s).value == []
  {
    SectionBounds(s);
    if s.start.line == -TwoTo31 {
      assert ToInt32(s.start.line - 1) == TwoTo31 - 1;
    } else {
      assert ToInt32(s.start.line - 1) == s.start.line - 1;
    }
  }

  /** Columns play no part in which lines a section covers. */
  lemma SectionLinesIgnoreColumns(s: SourceSection, c1: Int32, c2: Int32)
    ensures SectionLines(SourceSection(s.source, SourceLocation(s.start.line, c1), SourceLocation(s.end.line, c2)))
            == SectionLines(s)
  {
  }

  /**
   * A section whose end line comes two or more lines before its start is an illegal range, once
   * its end line is within the source; past the source's end the bound check fails first. A
   * section starting at the smallest `Int` is one of them: its first bound wraps to the largest.
   */
  lemma ReversedSectionIsIllegal(s: SourceSection)
    requires (1 <= s.start.line && s.end.line + 1 < s.start.line) || (s.start.line == -TwoTo31 && s.end.line < TwoTo31 - 1)
    requires s.end.line <= |Lines(s.source.content)|
    ensures SectionLines(s) == Failure(IllegalArgument)
  {
    SectionBounds(s);
    if s.start.line == -TwoTo31 {
      assert ToInt32(s.start.line - 1) == TwoTo31 - 1;
    } else {
      assert ToInt32(s.start.line - 1) == s.start.line - 1;
    }
  }
}
