/** The value types the services exchange (`Direction`, `RouteStep`,
    `PositionDto`, `RouteDto`) and the three exception kinds, here as the
    error datatype the operations return. */
module Dtos {
  import opened Wrappers
  import opened Text
  import opened Integers

  /** The robot's heading. */
  datatype Direction = N | S | E | W

  /** One step of a route: forward, backward, turn left, turn right. */
  datatype RouteStep = F | B | L | R

  /** `PositionDto`: where a robot stands and which way it faces. */
  datatype Position = Position(x: Int32, y: Int32, direction: Direction)

  /** `RouteDto`: a starting position and the raw, still unvalidated step
      text. */
  datatype Route = Route(startingPosition: Position, routeSteps: string)

  /** The starting-point parameter a failure is about. */
  datatype Parameter = ParameterX | ParameterY | ParameterDirection

  /** Why a starting-point line was rejected. */
  datatype StartingPointFailure =
    | NotSpecified                     // the line is white space only
    | NotSpecifiedProperly             // not exactly three comma-separated fields
    | NotParsed(parameter: Parameter)  // X or Y is not an integer, or the direction is unknown
    | UnsupportedCharacters            // the direction field holds a non-letter

  /** Why a step text was rejected. */
  datatype RouteFailure =
    | NonLetterSteps          // the trimmed step text holds a non-letter
    | UnparsedStep(step: char) // a letter that names no step

  datatype Error =
    | RouteParseError(route: RouteFailure)
    | StartingPointParseError(startingPoint: StartingPointFailure)
    | StartingPointOutOfRangeError(coordinate: Parameter)
    | NoStartingLine  // a block whose lines are all empty (`First` finds nothing)

  /** The member names of `Direction`. */
  function DirectionName(d: Direction): string {
    match d
    case N => "N"
    case S => "S"
    case E => "E"
    case W => "W"
  }

  /** The member names of `RouteStep`. */
  function StepName(s: RouteStep): string {
    match s
    case F => "F"
    case B => "B"
    case L => "L"
    case R => "R"
  }

  /** `Enum.TryParse(typeof(Direction), s, true, ...)` on a string of letters:
      the member whose name equals `s` ignoring case. */
  function DirectionFromName(s: string): (r: Option<Direction>)
    ensures forall d :: r == Some(d) <==> EqualsIgnoreCase(s, DirectionName(d))
  {
    EqualsIgnoreCaseSingle(s, 'N');
    EqualsIgnoreCaseSingle(s, 'S');
    EqualsIgnoreCaseSingle(s, 'E');
    EqualsIgnoreCaseSingle(s, 'W');
    if EqualsIgnoreCase(s, "N") then Some(N)
    else if EqualsIgnoreCase(s, "S") then Some(S)
    else if EqualsIgnoreCase(s, "E") then Some(E)
    else if EqualsIgnoreCase(s, "W") then Some(W)
    else None
  }

  /** `Enum.TryParse(typeof(RouteStep), s, true, ...)` on a string of letters. */
  function StepFromName(s: string): (r: Option<RouteStep>)
    ensures forall t :: r == Some(t) <==> EqualsIgnoreCase(s, StepName(t))
  {
    EqualsIgnoreCaseSingle(s, 'F');
    EqualsIgnoreCaseSingle(s, 'B');
    EqualsIgnoreCaseSingle(s, 'L');
    EqualsIgnoreCaseSingle(s, 'R');
    if EqualsIgnoreCase(s, "F") then Some(F)
    else if EqualsIgnoreCase(s, "B") then Some(B)
    else if EqualsIgnoreCase(s, "L") then Some(L)
    else if EqualsIgnoreCase(s, "R") then Some(R)
    else None
  }

  /** Each direction's name parses back to it, in either case. */
  lemma DirectionNameRoundTrip(d: Direction)
    ensures DirectionFromName(DirectionName(d)) == Some(d)
    ensures DirectionFromName(match d case N => "n" case S => "s" case E => "e" case W => "w") == Some(d)
  {
  }
}
