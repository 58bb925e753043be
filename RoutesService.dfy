/** `RoutesService`: turns the raw command text into one route per robot:
    comment stripping, the `POS=` block split, and the parsing and range
    check of each block's starting point. */
module RoutesService {
  import opened Wrappers
  import opened Seqs
  import opened Text
  import opened Integers
  import opened Dtos

  const CommandsSeparator: string := "POS="
  const CommentMarker: string := "//"
  const NewLineSeparator: string := "\r\n"
  const StartingPointParametersCount: nat := 3
  const StartingPointParametersSeparator: char := ','

  lemma SeparatorsAreBorderFree()
    ensures BorderFree(NewLineSeparator) && BorderFree(CommandsSeparator) && BorderFree([StartingPointParametersSeparator])
  {
    BorderFreeIfHeadUnique(NewLineSeparator);
    BorderFreeIfHeadUnique(CommandsSeparator);
    BorderFreeIfHeadUnique([StartingPointParametersSeparator]);
  }

  predicate IsNonEmpty(line: string) {
    line != ""
  }

  /** A line that survives comment stripping: not empty and not starting
      with `//`. White-space-only lines survive. */
  predicate IsCommandLine(line: string) {
    line != "" && !StartsWith(line, CommentMarker)
  }

  /** `GetRobotCommandsWithoutCommentsAsync`: the command lines of the text,
      in order, joined again with "\r\n". */
  function GetRobotCommandsWithoutComments(rawRobotsCommands: string): (r: string)
    ensures r != "" ==> Split(r, NewLineSeparator) == Filter(Split(rawRobotsCommands, NewLineSeparator), IsCommandLine)
    ensures r == "" <==> Filter(Split(rawRobotsCommands, NewLineSeparator), IsCommandLine) == []
    ensures (forall k :: 0 <= k < |Split(rawRobotsCommands, NewLineSeparator)| ==>
               IsCommandLine(Split(rawRobotsCommands, NewLineSeparator)[k])) ==> r == rawRobotsCommands
  {
    var lines := Split(rawRobotsCommands, NewLineSeparator);
    var robotsCommandsWithoutComments := Filter(lines, IsCommandLine);
    SeparatorsAreBorderFree();
    JoinSplit(rawRobotsCommands, NewLineSeparator);
    if robotsCommandsWithoutComments == [] then
      []
    else
      SplitJoin(robotsCommandsWithoutComments, NewLineSeparator);
      JoinOfNonEmptyPieces(robotsCommandsWithoutComments, NewLineSeparator);
      Join(robotsCommandsWithoutComments, NewLineSeparator)
  }

  lemma JoinOfNonEmptyPieces(parts: seq<string>, sep: string)
    requires parts != [] && parts[0] != []
    ensures Join(parts, sep) != []
  {
  }

  /** Stripping comments twice strips nothing more. */
  lemma StripCommentsIdempotent(rawRobotsCommands: string)
    ensures GetRobotCommandsWithoutComments(GetRobotCommandsWithoutComments(rawRobotsCommands))
         == GetRobotCommandsWithoutComments(rawRobotsCommands)
  {
    var once := GetRobotCommandsWithoutComments(rawRobotsCommands);
    if once == "" {
      assert Split(once, NewLineSeparator) == [""];
    } else {
      var lines := Split(once, NewLineSeparator);
      assert forall k :: 0 <= k < |lines| ==> IsCommandLine(lines[k]);
    }
  }

  /** `GetStartingPositionsAndRouteStepsAsync`: the non-empty pieces between
      `POS=` markers, in order. */
  function GetStartingPositionsAndRouteSteps(robotCommand: string): (r: seq<string>)
    ensures SelectsInOrder(r, Split(robotCommand, CommandsSeparator), IsNonEmpty)
    ensures forall k :: 0 <= k < |r| ==> r[k] != "" && !Contains(r[k], CommandsSeparator)
    ensures Concat(r) == Concat(Split(robotCommand, CommandsSeparator))
    ensures !Contains(robotCommand, CommandsSeparator) ==> r == if robotCommand == "" then [] else [robotCommand]
  {
    var pieces := Split(robotCommand, CommandsSeparator);
    ConcatWithoutEmpties(pieces);
    SplitWithoutSeparator(robotCommand, CommandsSeparator);
    FilterSelects(pieces, IsNonEmpty);
    Filter(pieces, IsNonEmpty)
  }

  /** Dropping empty pieces does not change their concatenation. */
  lemma {:induction false} ConcatWithoutEmpties(pieces: seq<string>)
    ensures Concat(Filter(pieces, IsNonEmpty)) == Concat(pieces)
  {
    if pieces != [] {
      ConcatWithoutEmpties(pieces[1..]);
      var head := if IsNonEmpty(pieces[0]) then [pieces[0]] else [];
      ConcatAppend(head, Filter(pieces[1..], IsNonEmpty));
    }
  }

  lemma {:induction false} ConcatAppend(a: seq<string>, b: seq<string>)
    ensures Concat(a + b) == Concat(a) + Concat(b)
  {
    if a == [] {
      assert a + b == b;
    } else {
      assert (a + b)[0] == a[0];
      assert (a + b)[1..] == a[1..] + b;
      ConcatAppend(a[1..], b);
      assert Concat(a + b) == a[0] + (Concat(a[1..]) + Concat(b));
    }
  }

  /** On text with no empty and no comment line, the blocks are just the
      non-empty pieces between `POS=` markers. */
  lemma CleanTextBlocks(rawRobotsCommands: string)
    requires forall k :: 0 <= k < |Split(rawRobotsCommands, NewLineSeparator)| ==>
               IsCommandLine(Split(rawRobotsCommands, NewLineSeparator)[k])
    ensures GetStartingPositionsAndRouteSteps(GetRobotCommandsWithoutComments(rawRobotsCommands))
         == Filter(Split(rawRobotsCommands, CommandsSeparator), IsNonEmpty)
  {
  }

  /** Every line is empty. */
  predicate AllEmpty(lines: seq<string>) {
    forall k :: 0 <= k < |lines| ==> lines[k] == []
  }

  /** LINQ `First(line => line != string.Empty)`, with the failure of an
      empty match modelled as `None`. */
  function FirstNonEmpty(lines: seq<string>): (r: Option<string>)
    ensures r.None? <==> AllEmpty(lines)
    ensures r.Some? ==> Filter(lines, IsNonEmpty) != [] && Filter(lines, IsNonEmpty)[0] == r.value
    ensures r.Some? ==> exists k :: (0 <= k < |lines| && lines[k] == r.value && r.value != ""
      && forall j :: 0 <= j < k ==> lines[j] == "")
  {
    if lines == [] then None
    else if lines[0] != "" then Some(lines[0])
    else
      var r := FirstNonEmpty(lines[1..]);
      SkipEmptyLine(lines);
      r
  }

  /** Dropping a leading empty line changes neither what is empty nor what
      `Filter` keeps, and shifts every line down by one. */
  lemma SkipEmptyLine(lines: seq<string>)
    requires lines != [] && lines[0] == ""
    ensures AllEmpty(lines) <==> AllEmpty(lines[1..])
    ensures Filter(lines, IsNonEmpty) == Filter(lines[1..], IsNonEmpty)
    ensures forall k :: 1 <= k < |lines| ==> lines[k] == lines[1..][k - 1]
  {
    FilterSkip(lines, IsNonEmpty);
    assert forall k :: 1 <= k < |lines| ==> lines[k] == lines[1..][k - 1];
    if AllEmpty(lines[1..]) {
      forall k | 0 <= k < |lines| ensures lines[k] == [] {
        if k > 0 {
          assert lines[k] == lines[1..][k - 1];
        }
      }
    }
  }

  /** `ValidateStartingPointParametersAsync`: X, then Y, must not be
      negative. */
  function ValidateStartingPointParameters(x: Int32, y: Int32, direction: Direction): (r: Outcome<Error>)
    ensures r.Pass? <==> x >= 0 && y >= 0
    ensures x < 0 ==> r == Fail(StartingPointOutOfRangeError(ParameterX))
    ensures x >= 0 && y < 0 ==> r == Fail(StartingPointOutOfRangeError(ParameterY))
  {
    if x < 0 then Fail(StartingPointOutOfRangeError(ParameterX))
    else if y < 0 then Fail(StartingPointOutOfRangeError(ParameterY))
    else Pass
  }

  /** `ValidateUnsupportedCharactersAsync` with the starting-point exception
      type: the direction field holds letters only. */
  function ValidateUnsupportedCharacters(inputSymbols: string): (r: Outcome<Error>)
    ensures r.Pass? <==> AllLetters(inputSymbols)
    ensures r.Fail? ==> r.error == StartingPointParseError(UnsupportedCharacters)
  {
    if exists i :: 0 <= i < |inputSymbols| && !IsLetter(inputSymbols[i]) then
      Fail(StartingPointParseError(UnsupportedCharacters))
    else Pass
  }

  /** `ParseStartingPointParameterAsync` for the X or Y field: `int.TryParse`,
      failing with the parameter's name. */
  function ParseStartingPointCoordinate(unparsedStartingPointParameter: string, parameterType: Parameter): (r: Result<Int32, Error>)
    ensures r.Success? <==> ParseInt32(unparsedStartingPointParameter).Some?
    ensures r.Success? ==> ParseInt32(unparsedStartingPointParameter) == Some(r.value)
    ensures r.Failure? ==> r.error == StartingPointParseError(NotParsed(parameterType))
  {
    match ParseInt32(unparsedStartingPointParameter)
    case None => Failure(StartingPointParseError(NotParsed(parameterType)))
    case Some(n) => Success(n)
  }

  /** `ParseStartingPointParameterAsync` for the direction field: letters
      only, then a case-insensitive `Direction` member name. */
  function ParseStartingPointDirection(unparsedStartingPointParameter: string): (r: Result<Direction, Error>)
    ensures forall d :: r == Success(d) <==> EqualsIgnoreCase(unparsedStartingPointParameter, DirectionName(d))
    ensures !AllLetters(unparsedStartingPointParameter) ==> r == Failure(StartingPointParseError(UnsupportedCharacters))
    ensures AllLetters(unparsedStartingPointParameter) && r.Failure? ==>
      r.error == StartingPointParseError(NotParsed(ParameterDirection))
  {
    match ValidateUnsupportedCharacters(unparsedStartingPointParameter)
    case Fail(e) =>
      NamesAreLetters(unparsedStartingPointParameter);
      Failure(e)
    case Pass =>
      match DirectionFromName(unparsedStartingPointParameter)
      case None => Failure(StartingPointParseError(NotParsed(ParameterDirection)))
      case Some(d) => Success(d)
  }

  /** Only letters can match a direction name. */
  lemma NamesAreLetters(s: string)
    ensures forall d :: EqualsIgnoreCase(s, DirectionName(d)) ==> AllLetters(s)
  {
    forall d | EqualsIgnoreCase(s, DirectionName(d))
      ensures AllLetters(s)
    {
      EqualsIgnoreCaseSingle(s, DirectionName(d)[0]);
      assert DirectionName(d) == [DirectionName(d)[0]];
    }
  }

  /** The line `First` picks is the one before which every line is
      empty. */
  lemma {:induction false} FirstNonEmptyAt(lines: seq<string>, k: int)
    requires 0 <= k < |lines| && lines[k] != "" && forall j :: 0 <= j < k ==> lines[j] == ""
    ensures FirstNonEmpty(lines) == Some(lines[k])
  {
    if k > 0 {
      assert lines[0] == "";
      assert lines[1..][k - 1] == lines[k];
      FirstNonEmptyAt(lines[1..], k - 1);
    }
  }

  /** The comma-separated fields of a trimmed starting-point line. */
  function StartingPointFields(line: string): seq<string> {
    Split(Trim(line), [StartingPointParametersSeparator])
  }

  /** `TryParseStartingPointParametersAsync`: a non-blank line of exactly
      three comma-separated fields, parsed as X, Y and direction, in that
      order; the first field that fails decides the error. */
  function TryParseStartingPointParameters(unparsedStartingPointParameters: string): (r: Result<(Int32, Int32, Direction), Error>)
    ensures r == Failure(StartingPointParseError(NotSpecified)) <==> IsNullOrWhiteSpace(unparsedStartingPointParameters)
    ensures !IsNullOrWhiteSpace(unparsedStartingPointParameters) && |StartingPointFields(unparsedStartingPointParameters)| != 3 ==>
      r == Failure(StartingPointParseError(NotSpecifiedProperly))
    ensures r.Success? <==>
      var fields := StartingPointFields(unparsedStartingPointParameters);
      !IsNullOrWhiteSpace(unparsedStartingPointParameters) && |fields| == 3
      && ParseInt32(fields[0]).Some? && ParseInt32(fields[1]).Some?
      && ParseStartingPointDirection(fields[2]).Success?
    ensures r.Success? ==>
      var fields := StartingPointFields(unparsedStartingPointParameters);
      ParseInt32(fields[0]) == Some(r.value.0) && ParseInt32(fields[1]) == Some(r.value.1)
      && EqualsIgnoreCase(fields[2], DirectionName(r.value.2))
    ensures var fields := StartingPointFields(unparsedStartingPointParameters);
      !IsNullOrWhiteSpace(unparsedStartingPointParameters) && |fields| == 3 && ParseInt32(fields[0]).None? ==>
        r == Failure(StartingPointParseError(NotParsed(ParameterX)))
    ensures var fields := StartingPointFields(unparsedStartingPointParameters);
      !IsNullOrWhiteSpace(unparsedStartingPointParameters) && |fields| == 3 && ParseInt32(fields[0]).Some?
      && ParseInt32(fields[1]).None? ==>
        r == Failure(StartingPointParseError(NotParsed(ParameterY)))
    ensures var fields := StartingPointFields(unparsedStartingPointParameters);
      !IsNullOrWhiteSpace(unparsedStartingPointParameters) && |fields| == 3 && ParseInt32(fields[0]).Some?
      && ParseInt32(fields[1]).Some? && ParseStartingPointDirection(fields[2]).Failure? ==>
        r == Failure(ParseStartingPointDirection(fields[2]).error)
    ensures r.Failure? ==> r.error.StartingPointParseError?
  {
    if IsNullOrWhiteSpace(unparsedStartingPointParameters) then
      Failure(StartingPointParseError(NotSpecified))
    else
      var startingPointCoordinatesAndDirection := StartingPointFields(unparsedStartingPointParameters);
      if |startingPointCoordinatesAndDirection| != StartingPointParametersCount then
        Failure(StartingPointParseError(NotSpecifiedProperly))
      else
        var x :- ParseStartingPointCoordinate(startingPointCoordinatesAndDirection[0], ParameterX);
        var y :- ParseStartingPointCoordinate(startingPointCoordinatesAndDirection[1], ParameterY);
        var direction :- ParseStartingPointDirection(startingPointCoordinatesAndDirection[2]);
        Success((x, y, direction))
  }

  /** `CreateRouteStartingPointAsync(int, int, Direction)`: the range check,
      then the position with exactly the given values. */
  function CreateRouteStartingPointFromParameters(x: Int32, y: Int32, direction: Direction): (r: Result<Position, Error>)
    ensures r.Success? <==> x >= 0 && y >= 0
    ensures r.Success? ==> r.value.x == x && r.value.y == y && r.value.direction == direction
    ensures r.Failure? ==> r.error.StartingPointOutOfRangeError?
  {
    match ValidateStartingPointParameters(x, y, direction)
    case Fail(e) => Failure(e)
    case Pass => Success(Position(x, y, direction))
  }

  /** `CreateRouteStartingPointAsync(string)`: parse, then range-check. Any
      parse error wins over a range error. */
  function CreateRouteStartingPoint(unparsedStartingPointParameters: string): (r: Result<Position, Error>)
    ensures TryParseStartingPointParameters(unparsedStartingPointParameters).Failure? ==>
      r == Failure(TryParseStartingPointParameters(unparsedStartingPointParameters).error)
    ensures r.Success? ==> r.value.x >= 0 && r.value.y >= 0
    ensures r.Success? ==>
      TryParseStartingPointParameters(unparsedStartingPointParameters)
      == Success((r.value.x, r.value.y, r.value.direction))
    ensures r.Failure? ==> r.error.StartingPointParseError? || r.error.StartingPointOutOfRangeError?
    ensures var t := TryParseStartingPointParameters(unparsedStartingPointParameters);
      t.Success? ==>
        r == if t.value.0 < 0 then Failure(StartingPointOutOfRangeError(ParameterX))
             else if t.value.1 < 0 then Failure(StartingPointOutOfRangeError(ParameterY))
             else Success(Position(t.value.0, t.value.1, t.value.2))
  {
    var startingPointParameters :- TryParseStartingPointParameters(unparsedStartingPointParameters);
    CreateRouteStartingPointFromParameters(startingPointParameters.0, startingPointParameters.1, startingPointParameters.2)
  }

  /** The starting-point line of a block in the form `X,Y,Direction`, with the direction written as `directionName`. */
  function FormatStartingPoint(x: Int32, y: Int32, directionName: string): string {
    FormatInt(x) + [StartingPointParametersSeparator] + FormatInt(y) + [StartingPointParametersSeparator] + directionName
  }

  /** A direction field that is not empty, does not end in white space and
      holds no comma. */
  predicate IsDirectionField(directionName: string) {
    directionName != [] && !IsWhiteSpace(directionName[|directionName| - 1])
    && !Contains(directionName, [StartingPointParametersSeparator])
  }

  /** Every non-empty word is such a field. */
  lemma WordIsDirectionField(directionName: string)
    requires directionName != [] && AllLetters(directionName)
    ensures IsDirectionField(directionName)
  {
    assert IsLetter(directionName[|directionName| - 1]);
    MissingCharNotContained(directionName, [StartingPointParametersSeparator], 0);
  }

  /** A formatted line is not blank and splits back into its three
      fields. */
  lemma FormattedFields(x: Int32, y: Int32, directionName: string)
    requires IsDirectionField(directionName)
    ensures !IsNullOrWhiteSpace(FormatStartingPoint(x, y, directionName))
    ensures StartingPointFields(FormatStartingPoint(x, y, directionName)) == [FormatInt(x), FormatInt(y), directionName]
  {
    var sx, sy, sd := FormatInt(x), FormatInt(y), directionName;
    var comma := [StartingPointParametersSeparator];
    var line := FormatStartingPoint(x, y, directionName);
    assert line[0] == sx[0];
    assert line[|line| - 1] == sd[|sd| - 1];
    NoWhiteAtEnds(line);
    NoComma(sx);
    NoComma(sy);
    JoinThree(sx, sy, sd, comma);
    SeparatorsAreBorderFree();
    SplitJoin([sx, sy, sd], comma);
  }

  lemma JoinThree(a: string, b: string, c: string, sep: string)
    ensures Join([a, b, c], sep) == a + sep + b + sep + c
  {
    assert [a, b, c][1..] == [b, c];
    assert [b, c][1..] == [c];
    assert Join([b, c], sep) == b + sep + c;
    assert Join([a, b, c], sep) == a + sep + (b + sep + c);
  }

  /** A formatted line parses to its X and Y; only the direction field
      can fail. */
  lemma TryParseFormatted(x: Int32, y: Int32, directionName: string)
    requires IsDirectionField(directionName)
    ensures TryParseStartingPointParameters(FormatStartingPoint(x, y, directionName)) ==
      match ParseStartingPointDirection(directionName)
      case Success(d) => Success((x, y, d))
      case Failure(e) => Failure(e)
  {
    FormattedFields(x, y, directionName);
    ParseFormat(x);
    ParseFormat(y);
  }

  /** Every starting point written as `X,Y,Direction` parses back to the
      same values. */
  lemma StartingPointRoundTrip(x: Int32, y: Int32, direction: Direction)
    ensures TryParseStartingPointParameters(FormatStartingPoint(x, y, DirectionName(direction))) == Success((x, y, direction))
  {
    WordIsDirectionField(DirectionName(direction));
    TryParseFormatted(x, y, DirectionName(direction));
    DirectionNameRoundTrip(direction);
    assert ParseStartingPointDirection(DirectionName(direction)) == Success(direction);
  }

  /** A formatted starting point is the position it describes, unless a
      negative X, then a negative Y, puts it out of range. */
  lemma StartingPointRangeCheck(x: Int32, y: Int32, direction: Direction)
    ensures CreateRouteStartingPoint(FormatStartingPoint(x, y, DirectionName(direction))) ==
      if x < 0 then Failure(StartingPointOutOfRangeError(ParameterX))
      else if y < 0 then Failure(StartingPointOutOfRangeError(ParameterY))
      else Success(Position(x, y, direction))
  {
    StartingPointRoundTrip(x, y, direction);
  }

  /** A word that names no direction is a parse error even when X or Y is
      negative: range checks only run once all three fields parse (so
      `-1,0,Q` is a parse error). */
  lemma UnknownDirectionIsParseError(x: Int32, y: Int32, directionName: string)
    requires directionName != [] && AllLetters(directionName) && DirectionFromName(directionName) == None
    ensures CreateRouteStartingPoint(FormatStartingPoint(x, y, directionName))
         == Failure(StartingPointParseError(NotParsed(ParameterDirection)))
  {
    WordIsDirectionField(directionName);
    TryParseFormatted(x, y, directionName);
    assert ParseStartingPointDirection(directionName) == Failure(StartingPointParseError(NotParsed(ParameterDirection)));
  }

  /** A direction field with a non-letter is reported as unsupported
      characters, whatever X and Y are. */
  lemma NonLetterDirectionIsUnsupported(x: Int32, y: Int32, directionName: string)
    requires IsDirectionField(directionName) && !AllLetters(directionName)
    ensures CreateRouteStartingPoint(FormatStartingPoint(x, y, directionName))
         == Failure(StartingPointParseError(UnsupportedCharacters))
  {
    TryParseFormatted(x, y, directionName);
  }

  lemma NoComma(s: string)
    requires forall i :: 0 <= i < |s| ==> IsDigit(s[i]) || s[i] == '-'
    ensures !Contains(s, [StartingPointParametersSeparator])
  {
    MissingCharNotContained(s, [StartingPointParametersSeparator], 0);
  }

  /** `GetStartingPositionAsync`: the starting point on the block's first
      non-empty line. */
  function GetStartingPosition(startingPositionsAndRouteStep: string): (r: Result<Position, Error>)
    ensures var lines := Split(startingPositionsAndRouteStep, NewLineSeparator);
      r == Failure(NoStartingLine) <==> AllEmpty(lines)
    ensures var lines := Split(startingPositionsAndRouteStep, NewLineSeparator);
      forall k :: 0 <= k < |lines| && lines[k] != "" && (forall j :: 0 <= j < k ==> lines[j] == "") ==>
        r == CreateRouteStartingPoint(lines[k])
    ensures r.Success? ==> r.value.x >= 0 && r.value.y >= 0
    ensures r.Failure? ==> !r.error.RouteParseError?
  {
    var lines := Split(startingPositionsAndRouteStep, NewLineSeparator);
    var first := FirstNonEmpty(lines);
    assert forall k :: 0 <= k < |lines| && lines[k] != "" && (forall j :: 0 <= j < k ==> lines[j] == "") ==>
      first == Some(lines[k]) by {
      forall k | 0 <= k < |lines| && lines[k] != "" && (forall j :: 0 <= j < k ==> lines[j] == "") {
        FirstNonEmptyAt(lines, k);
      }
    }
    if first.None? then Failure(NoStartingLine)
    else
      var startingPositionDto := CreateRouteStartingPoint(first.value);
      startingPositionDto
  }

  /** `GetRouteStepsAsync`: every non-empty line after the first one, glued
      together without separators. */
  function GetRouteSteps(startingPositionsAndRouteStep: string): (r: string)
    ensures var lines := Split(startingPositionsAndRouteStep, NewLineSeparator);
      match FirstNonEmpty(lines)
      case None => r == ""
      case Some(startingLine) => Concat(Filter(lines, IsNonEmpty)) == startingLine + r
    ensures |Filter(Split(startingPositionsAndRouteStep, NewLineSeparator), IsNonEmpty)| <= 1 ==> r == ""
  {
    var routeStepsFromDifferentLines := Filter(Split(startingPositionsAndRouteStep, NewLineSeparator), IsNonEmpty);
    if routeStepsFromDifferentLines == [] then "" else Concat(routeStepsFromDifferentLines[1..])
  }

  /** A block written as a starting line followed by step lines yields that
      starting line and those step lines glued together. */
  lemma BlockRoundTrip(startingLine: string, stepLines: seq<string>)
    requires IsNonEmpty(startingLine) && !Contains(startingLine, NewLineSeparator)
    requires forall k :: 0 <= k < |stepLines| ==> IsNonEmpty(stepLines[k]) && !Contains(stepLines[k], NewLineSeparator)
    ensures FirstNonEmpty(Split(Join([startingLine] + stepLines, NewLineSeparator), NewLineSeparator)) == Some(startingLine)
    ensures GetRouteSteps(Join([startingLine] + stepLines, NewLineSeparator)) == Concat(stepLines)
  {
    var lines := [startingLine] + stepLines;
    var text := Join(lines, NewLineSeparator);
    assert forall k :: 0 <= k < |lines| ==> IsNonEmpty(lines[k]) && !Contains(lines[k], NewLineSeparator) by {
      forall k | 0 <= k < |lines|
        ensures IsNonEmpty(lines[k]) && !Contains(lines[k], NewLineSeparator)
      {
        if k > 0 { assert lines[k] == stepLines[k - 1]; }
      }
    }
    BlockLines(lines);
    assert Split(text, NewLineSeparator) == lines;
    assert FirstNonEmpty(lines) == Some(startingLine);
    assert Filter(lines, IsNonEmpty) == lines;
    assert lines[1..] == stepLines;
  }

  lemma BlockLines(lines: seq<string>)
    requires |lines| >= 1
    requires forall k :: 0 <= k < |lines| ==> !Contains(lines[k], NewLineSeparator)
    ensures Split(Join(lines, NewLineSeparator), NewLineSeparator) == lines
  {
    SeparatorsAreBorderFree();
    SplitJoin(lines, NewLineSeparator);
  }

  /** The body of the loop in `GetRoutesFromCommandsAsync`: one block's
      route. */
  function RouteFromBlock(startingPositionAndRouteStep: string): (r: Result<Route, Error>)
    ensures r.Success? <==> GetStartingPosition(startingPositionAndRouteStep).Success?
    ensures r.Success? ==>
      r.value.startingPosition == GetStartingPosition(startingPositionAndRouteStep).value
      && r.value.routeSteps == GetRouteSteps(startingPositionAndRouteStep)
    ensures r.Failure? ==> r.error == GetStartingPosition(startingPositionAndRouteStep).error
  {
    var startingPosition :- GetStartingPosition(startingPositionAndRouteStep);
    Success(Route(startingPosition, GetRouteSteps(startingPositionAndRouteStep)))
  }

  /** The robot blocks of the raw command text. */
  function Blocks(rawRobotsCommands: string): seq<string> {
    GetStartingPositionsAndRouteSteps(GetRobotCommandsWithoutComments(rawRobotsCommands))
  }

  /** What `GetRoutesFromCommandsAsync` returns: one route per block, in
      block order, or the error of the first block whose starting point
      fails (`RoutesFromCommandsBlocks` states this block by block). Step
      text is not validated here. */
  function RoutesFromCommands(rawRobotsCommands: string): (r: Result<seq<Route>, Error>)
    ensures r.Failure? ==> !r.error.RouteParseError?
  {
    var blocks := Blocks(rawRobotsCommands);
    BlockRoutesErrorKind(blocks);
    MapAll(blocks, RouteFromBlock)
  }

  /** The routes of the command text, block by block: each block's starting
      position and steps when every block has a starting position, and
      otherwise the error of the first block without one. */
  lemma RoutesFromCommandsBlocks(rawRobotsCommands: string)
    ensures var blocks, r := Blocks(rawRobotsCommands), RoutesFromCommands(rawRobotsCommands);
      r.Success? ==> |r.value| == |blocks| && forall k :: 0 <= k < |blocks| ==>
        GetStartingPosition(blocks[k]) == Success(r.value[k].startingPosition)
        && r.value[k].routeSteps == GetRouteSteps(blocks[k])
    ensures var blocks, r := Blocks(rawRobotsCommands), RoutesFromCommands(rawRobotsCommands);
      r.Success? <==> forall k :: 0 <= k < |blocks| ==> GetStartingPosition(blocks[k]).Success?
    ensures var blocks, r := Blocks(rawRobotsCommands), RoutesFromCommands(rawRobotsCommands);
      r.Failure? ==> exists k :: (0 <= k < |blocks| && GetStartingPosition(blocks[k]) == Failure(r.error)
        && forall j :: 0 <= j < k ==> GetStartingPosition(blocks[j]).Success?)
  {
    var blocks := Blocks(rawRobotsCommands);
    BlockRoutesValues(blocks);
    BlockRoutesSucceed(blocks);
    BlockRoutesFirstFailure(blocks);
  }

  /** A successful list of block routes holds each block's starting
      position and steps, in block order. */
  lemma BlockRoutesValues(blocks: seq<string>)
    ensures var r := MapAll(blocks, RouteFromBlock);
      r.Success? ==> |r.value| == |blocks| && forall k :: 0 <= k < |blocks| ==>
        GetStartingPosition(blocks[k]) == Success(r.value[k].startingPosition)
        && r.value[k].routeSteps == GetRouteSteps(blocks[k])
  {
  }

  /** The block routes succeed exactly when every block has a starting
      position. */
  lemma BlockRoutesSucceed(blocks: seq<string>)
    ensures var r := MapAll(blocks, RouteFromBlock);
      r.Success? <==> forall k :: 0 <= k < |blocks| ==> GetStartingPosition(blocks[k]).Success?
  {
  }

  /** A failure of the block routes is the starting-point error of the
      first block that has one. */
  lemma BlockRoutesFirstFailure(blocks: seq<string>)
    ensures var r := MapAll(blocks, RouteFromBlock);
      r.Failure? ==> exists k :: (0 <= k < |blocks| && GetStartingPosition(blocks[k]) == Failure(r.error)
        && forall j :: 0 <= j < k ==> GetStartingPosition(blocks[j]).Success?)
  {
    var r := MapAll(blocks, RouteFromBlock);
    if r.Failure? {
      var k :| 0 <= k < |blocks| && RouteFromBlock(blocks[k]) == Failure(r.error)
        && forall j :: 0 <= j < k ==> RouteFromBlock(blocks[j]).Success?;
      assert GetStartingPosition(blocks[k]) == Failure(r.error);
    }
  }

  /** Extracting routes never reports a step-text error. */
  lemma BlockRoutesErrorKind(blocks: seq<string>)
    ensures var r := MapAll(blocks, RouteFromBlock);
      r.Failure? ==> !r.error.RouteParseError?
  {
    BlockRoutesFirstFailure(blocks);
  }

  /** `GetRoutesFromCommandsAsync`: strips comments, splits the blocks and
      runs the `foreach` over them, appending one route per block; the
      first block whose starting point fails ends the loop with its
      error. */
  method GetRoutesFromCommands(rawRobotsCommands: string) returns (r: Result<seq<Route>, Error>)
    ensures r == RoutesFromCommands(rawRobotsCommands)
  {
    var robotCommandsWithoutComments := GetRobotCommandsWithoutComments(rawRobotsCommands);
    var startingPositionsAndRouteSteps := GetStartingPositionsAndRouteSteps(robotCommandsWithoutComments);
    r := MapEach(startingPositionsAndRouteSteps, RouteFromBlock);
  }

  /** The command text for one robot, `POS=X,Y,D` + `\r\n` + steps: the
      marker directly followed by the starting line, a line break and the
      steps. */
  function SingleRobotCommands(x: Int32, y: Int32, direction: Direction, routeSteps: string): string {
    CommandsSeparator + SingleRobotBlock(x, y, direction, routeSteps)
  }

  /** A formatted starting line holds digits, '-', ',' and the direction
      word only. */
  lemma StartingLineChars(x: Int32, y: Int32, directionName: string)
    ensures forall i :: 0 <= i < |FormatStartingPoint(x, y, directionName)| ==>
      var c := FormatStartingPoint(x, y, directionName)[i];
      IsDigit(c) || c == '-' || c == StartingPointParametersSeparator || c in directionName
  {
    var sx, sy := FormatInt(x), FormatInt(y);
    var line := FormatStartingPoint(x, y, directionName);
    forall i | 0 <= i < |line|
      ensures IsDigit(line[i]) || line[i] == '-' || line[i] == StartingPointParametersSeparator || line[i] in directionName
    {
      if i < |sx| {
        assert line[i] == sx[i];
      } else if i == |sx| {
      } else if i < |sx| + 1 + |sy| {
        assert line[i] == sy[i - |sx| - 1];
      } else if i == |sx| + 1 + |sy| {
      } else {
        assert line[i] == directionName[i - |sx| - 2 - |sy|];
      }
    }
  }

  /** One robot's commands are two lines: the marked starting line and the
      steps. */
  lemma SingleRobotLines(x: Int32, y: Int32, direction: Direction, routeSteps: string)
    requires AllLetters(routeSteps)
    ensures Split(SingleRobotCommands(x, y, direction, routeSteps), NewLineSeparator)
         == [CommandsSeparator + FormatStartingPoint(x, y, DirectionName(direction)), routeSteps]
  {
    var head := CommandsSeparator + FormatStartingPoint(x, y, DirectionName(direction));
    MarkedLineUnbroken(x, y, direction);
    MissingCharNotContained(routeSteps, NewLineSeparator, 0);
    SingleRobotCommandsLayout(x, y, direction, routeSteps);
    SeparatorsAreBorderFree();
    SplitTwoPieces(head, NewLineSeparator, routeSteps);
  }

  lemma SingleRobotCommandsLayout(x: Int32, y: Int32, direction: Direction, routeSteps: string)
    ensures SingleRobotCommands(x, y, direction, routeSteps)
         == CommandsSeparator + FormatStartingPoint(x, y, DirectionName(direction)) + NewLineSeparator + routeSteps
  {
  }

  /** The marked starting line holds no line break. */
  lemma MarkedLineUnbroken(x: Int32, y: Int32, direction: Direction)
    ensures !Contains(CommandsSeparator + FormatStartingPoint(x, y, DirectionName(direction)), NewLineSeparator)
  {
    var line := FormatStartingPoint(x, y, DirectionName(direction));
    var head := CommandsSeparator + line;
    StartingLineChars(x, y, DirectionName(direction));
    forall i | 0 <= i < |head|
      ensures head[i] != '\r'
    {
      if i >= |CommandsSeparator| {
        assert head[i] == line[i - |CommandsSeparator|];
      }
    }
    MissingCharNotContained(head, NewLineSeparator, 0);
  }

  /** Comment stripping keeps one robot's commands as they are. */
  lemma SingleRobotHasNoComments(x: Int32, y: Int32, direction: Direction, routeSteps: string)
    requires routeSteps != [] && AllLetters(routeSteps)
    ensures GetRobotCommandsWithoutComments(SingleRobotCommands(x, y, direction, routeSteps))
         == SingleRobotCommands(x, y, direction, routeSteps)
  {
    var raw := SingleRobotCommands(x, y, direction, routeSteps);
    var head := CommandsSeparator + FormatStartingPoint(x, y, DirectionName(direction));
    SingleRobotLines(x, y, direction, routeSteps);
    var lines := Split(raw, NewLineSeparator);
    assert head[0] == 'P';
    FirstCharRulesOutPrefix(head, CommentMarker);
    FirstCharRulesOutPrefix(routeSteps, CommentMarker);
    assert forall k :: 0 <= k < |lines| ==> IsCommandLine(lines[k]);
  }

  /** The one block of a single robot's commands: the starting line, a
      line break and the steps. */
  function SingleRobotBlock(x: Int32, y: Int32, direction: Direction, routeSteps: string): string {
    FormatStartingPoint(x, y, DirectionName(direction)) + NewLineSeparator + routeSteps
  }

  /** A single robot's block holds no `=`, so no `POS=` marker. */
  lemma SingleRobotBlockUnmarked(x: Int32, y: Int32, direction: Direction, routeSteps: string)
    requires AllLetters(routeSteps)
    ensures !Contains(SingleRobotBlock(x, y, direction, routeSteps), CommandsSeparator)
  {
    var line := FormatStartingPoint(x, y, DirectionName(direction));
    var block := SingleRobotBlock(x, y, direction, routeSteps);
    StartingLineChars(x, y, DirectionName(direction));
    assert '=' !in block by {
      forall i | 0 <= i < |block|
        ensures block[i] != '='
      {
        if i < |line| {
          assert block[i] == line[i];
        } else if i >= |line| + 2 {
          assert block[i] == routeSteps[i - |line| - 2];
        }
      }
    }
    MissingCharNotContained(block, CommandsSeparator, 3);
  }

  /** Splitting a single robot's commands at `POS=` gives the empty text
      before the marker and the block after it. */
  lemma SingleRobotSections(x: Int32, y: Int32, direction: Direction, routeSteps: string)
    requires AllLetters(routeSteps)
    ensures Split(SingleRobotCommands(x, y, direction, routeSteps), CommandsSeparator)
         == ["", SingleRobotBlock(x, y, direction, routeSteps)]
  {
    var block := SingleRobotBlock(x, y, direction, routeSteps);
    SingleRobotBlockUnmarked(x, y, direction, routeSteps);
    SplitAfterLeadingSeparator(CommandsSeparator, block);
  }

  /** One robot's commands form a single block. */
  lemma SingleRobotBlocks(x: Int32, y: Int32, direction: Direction, routeSteps: string)
    requires routeSteps != [] && AllLetters(routeSteps)
    ensures Blocks(SingleRobotCommands(x, y, direction, routeSteps)) == [SingleRobotBlock(x, y, direction, routeSteps)]
  {
    var block := SingleRobotBlock(x, y, direction, routeSteps);
    SingleRobotHasNoComments(x, y, direction, routeSteps);
    SingleRobotSections(x, y, direction, routeSteps);
    assert ["", block][1..] == [block];
    assert Filter(["", block], IsNonEmpty) == [block];
  }

  /** A single robot's block has the starting line first and the steps as
      its only other line. */
  lemma SingleRobotBlockParts(x: Int32, y: Int32, direction: Direction, routeSteps: string)
    requires routeSteps != [] && AllLetters(routeSteps)
    ensures FirstNonEmpty(Split(SingleRobotBlock(x, y, direction, routeSteps), NewLineSeparator))
         == Some(FormatStartingPoint(x, y, DirectionName(direction)))
    ensures GetRouteSteps(SingleRobotBlock(x, y, direction, routeSteps)) == routeSteps
  {
    var line := FormatStartingPoint(x, y, DirectionName(direction));
    StartingLineChars(x, y, DirectionName(direction));
    assert line[0] == FormatInt(x)[0];
    assert '\r' !in line;
    MissingCharNotContained(line, NewLineSeparator, 0);
    MissingCharNotContained(routeSteps, NewLineSeparator, 0);
    BlockRoundTrip(line, [routeSteps]);
    assert Join([line] + [routeSteps], NewLineSeparator) == SingleRobotBlock(x, y, direction, routeSteps) by {
      assert ([line] + [routeSteps])[1..] == [routeSteps];
    }
    assert Concat([routeSteps]) == routeSteps by {
      assert [routeSteps][1..] == [];
    }
  }

  /** A single robot's block, with its starting point in range, is the
      route from that point along the steps. */
  lemma SingleRobotBlockRoute(x: Int32, y: Int32, direction: Direction, routeSteps: string)
    requires x >= 0 && y >= 0 && routeSteps != [] && AllLetters(routeSteps)
    ensures RouteFromBlock(SingleRobotBlock(x, y, direction, routeSteps)) == Success(Route(Position(x, y, direction), routeSteps))
  {
    SingleRobotBlockParts(x, y, direction, routeSteps);
    StartingPointRangeCheck(x, y, direction);
  }

  /** One robot's commands in that layout yield exactly one route:
      the formatted starting point, when it is in range, and the step text. */
  lemma SingleRobotRoutes(x: Int32, y: Int32, direction: Direction, routeSteps: string)
    requires x >= 0 && y >= 0 && routeSteps != [] && AllLetters(routeSteps)
    ensures RoutesFromCommands(SingleRobotCommands(x, y, direction, routeSteps))
         == Success([Route(Position(x, y, direction), routeSteps)])
  {
    var block := SingleRobotBlock(x, y, direction, routeSteps);
    SingleRobotBlocks(x, y, direction, routeSteps);
    SingleRobotBlockRoute(x, y, direction, routeSteps);
    MapAllSuccess([block], RouteFromBlock, [Route(Position(x, y, direction), routeSteps)]);
  }
}
