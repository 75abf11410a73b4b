/**
 * Source sections built from the positions and tokens of the parser: the extension functions
 * `fromPoint`, `fromPosition`, `fromToken` and `fromTokens`.
 */
module TokenRanges {
  import opened Wrappers
  import opened Sources
  import opened Sections

  /** A parser point: a 1-based line and a 0-based column. */
  datatype Point = Point(line: Int32, column: Int32)

  /** A parser position: the points where a rule context starts and ends. */
  datatype Position = Position(start: Point, end: Point)

  /**
   * The token fields the range functions read: the character offsets of its first and last
   * characters, its start point, and its end point, which the runtime may not know.
   */
  datatype Token = Token(text: Option<string>, startIndex: int, stopIndex: int, startPoint: Point, endPoint: Option<Point>)

  /** `SourceLocation.fromPoint`. */
  function FromPoint(p: Point): (l: SourceLocation)
    ensures l.line == p.line && l.column == p.column
  {
    SourceLocation(p.line, p.column)
  }

  function FromPosition(source: Source, position: Position): (s: SourceSection)
    ensures s.source == source
    ensures s.start == FromPoint(position.start) && s.end == FromPoint(position.end)
  {
    SourceSection(source, FromPoint(position.start), FromPoint(position.end))
  }

  /** `fromToken`: from the token's start point to its end point, or to its start point when the end is unknown. */
  function FromToken(source: Source, token: Token): (s: SourceSection)
    ensures s.source == source && s.start == FromPoint(token.startPoint)
    ensures token.endPoint.Some? ==> s.end == FromPoint(token.endPoint.value)
    ensures token.endPoint.None? ==> s.end == s.start
  {
    SourceSection(source, FromPoint(token.startPoint), FromPoint(token.endPoint.GetOr(token.startPoint)))
  }

  /**
   * `fromTokens`: from the start of whichever token starts first (the start token on a tie) to the
   * end of whichever token stops last (the stop token on a tie).
   */
  function FromTokens(source: Source, startToken: Token, stopToken: Token): (s: SourceSection)
    ensures s.source == source
    ensures startToken.startIndex <= stopToken.startIndex ==> s.start == FromPoint(startToken.startPoint)
    ensures startToken.startIndex > stopToken.startIndex ==> s.start == FromPoint(stopToken.startPoint)
    ensures var last := if stopToken.stopIndex >= startToken.stopIndex then stopToken else startToken;
            s.end == if last.endPoint.Some? then FromPoint(last.endPoint.value) else s.start
  {
    var startPoint := if startToken.startIndex <= stopToken.startIndex then startToken.startPoint else stopToken.startPoint;
    var endPoint := if stopToken.stopIndex >= startToken.stopIndex then stopToken.endPoint else startToken.endPoint;
    SourceSection(source, FromPoint(startPoint), FromPoint(endPoint.GetOr(startPoint)))
  }

  /** A range built from a single token twice is the range of that token. */
  lemma FromTokensSame(source: Source, t: Token)
    ensures FromTokens(source, t, t) == FromToken(source, t)
  {
  }

  /** Argument order does not matter once the two tokens start and stop at different offsets. */
  lemma FromTokensSymmetric(source: Source, a: Token, b: Token)
    requires a.startIndex != b.startIndex && a.stopIndex != b.stopIndex
    ensures FromTokens(source, a, b) == FromTokens(source, b, a)
  {
  }

  /** Location order: by line, then by column. */
  predicate LocationLe(a: SourceLocation, b: SourceLocation) {
    a.line < b.line || (a.line == b.line && a.column <= b.column)
  }

  predicate PointLe(a: Point, b: Point) {
    a.line < b.line || (a.line == b.line && a.column <= b.column)
  }

  /** Points agree with offsets: a token starting (stopping) no later also has a start (end) point no later. */
  predicate Consistent(a: Token, b: Token) {
    && (a.startIndex <= b.startIndex ==> PointLe(a.startPoint, b.startPoint))
    && (b.startIndex <= a.startIndex ==> PointLe(b.startPoint, a.startPoint))
    && (a.endPoint.Some? && b.endPoint.Some? ==>
          (a.stopIndex <= b.stopIndex ==> PointLe(a.endPoint.value, b.endPoint.value)) &&
          (b.stopIndex <= a.stopIndex ==> PointLe(b.endPoint.value, a.endPoint.value)))
  }

  /** The range covers both tokens, in either argument order, when their points agree with their offsets. */
  lemma FromTokensCovers(source: Source, a: Token, b: Token)
    requires Consistent(a, b)
    requires a.endPoint.Some? && b.endPoint.Some?
    ensures var s := FromTokens(source, a, b);
            && LocationLe(s.start, FromPoint(a.startPoint)) && LocationLe(s.start, FromPoint(b.startPoint))
            && LocationLe(FromPoint(a.endPoint.value), s.end) && LocationLe(FromPoint(b.endPoint.value), s.end)
  {
  }
}
