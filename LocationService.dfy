/** `LocationService`: validates a route's step text and folds the steps
    over the starting position with the orientation state machine. */
module LocationService {
  import opened Wrappers
  import opened Seqs
  import opened Text
  import opened Integers
  import opened Dtos

  const MovingStep: int := 1

  /** A displacement on the grid; y grows towards the south. */
  datatype Vector = Vector(dx: int, dy: int)

  /** The unit vector a robot facing `d` moves along when it goes forward
      (north decreases y). This is the geometric reading of the case tables
      below, stated independently of them. */
  function Heading(d: Direction): Vector {
    match d
    case N => Vector(0, -1)
    case S => Vector(0, 1)
    case E => Vector(1, 0)
    case W => Vector(-1, 0)
  }

  /** A quarter turn clockwise on a grid whose y axis points south. */
  function RotateClockwise(v: Vector): Vector {
    Vector(-v.dy, v.dx)
  }

  /** Different directions have different headings. */
  lemma HeadingInjective(d: Direction, e: Direction)
    ensures Heading(d) == Heading(e) ==> d == e
  {
  }

  /** `TurnRightAsync`: a quarter turn clockwise (N to E to S to W to N) in
      place. */
  function TurnRight(currentPosition: Position): (r: Position)
    ensures r.x == currentPosition.x && r.y == currentPosition.y
    ensures r.direction != currentPosition.direction
  {
    match currentPosition.direction
    case N => Position(currentPosition.x, currentPosition.y, E)
    case S => Position(currentPosition.x, currentPosition.y, W)
    case W => Position(currentPosition.x, currentPosition.y, N)
    case E => Position(currentPosition.x, currentPosition.y, S)
  }

  /** `TurnLeftAsync`: a quarter turn counter-clockwise in place. */
  function TurnLeft(currentPosition: Position): (r: Position)
    ensures r.x == currentPosition.x && r.y == currentPosition.y
    ensures r.direction != currentPosition.direction
  {
    match currentPosition.direction
    case N => Position(currentPosition.x, currentPosition.y, W)
    case S => Position(currentPosition.x, currentPosition.y, E)
    case W => Position(currentPosition.x, currentPosition.y, S)
    case E => Position(currentPosition.x, currentPosition.y, N)
  }

  /** `MoveForwardAsync`: one step along the heading, with the unchecked
      32-bit arithmetic of C# `int`. */
  function MoveForward(currentPosition: Position): (r: Position)
    ensures r.direction == currentPosition.direction
    ensures r.x == Wrap32(currentPosition.x + MovingStep * Heading(currentPosition.direction).dx)
    ensures r.y == Wrap32(currentPosition.y + MovingStep * Heading(currentPosition.direction).dy)
  {
    match currentPosition.direction
    case N => Position(currentPosition.x, Wrap32(currentPosition.y - MovingStep), N)
    case S => Position(currentPosition.x, Wrap32(currentPosition.y + MovingStep), S)
    case W => Position(Wrap32(currentPosition.x - MovingStep), currentPosition.y, W)
    case E => Position(Wrap32(currentPosition.x + MovingStep), currentPosition.y, E)
  }

  /** `MoveBackwardAsync`: one step against the heading. */
  function MoveBackward(currentPosition: Position): (r: Position)
    ensures r.direction == currentPosition.direction
    ensures r.x == Wrap32(currentPosition.x - MovingStep * Heading(currentPosition.direction).dx)
    ensures r.y == Wrap32(currentPosition.y - MovingStep * Heading(currentPosition.direction).dy)
  {
    match currentPosition.direction
    case N => Position(currentPosition.x, Wrap32(currentPosition.y + MovingStep), N)
    case S => Position(currentPosition.x, Wrap32(currentPosition.y - MovingStep), S)
    case W => Position(Wrap32(currentPosition.x + MovingStep), currentPosition.y, W)
    case E => Position(Wrap32(currentPosition.x - MovingStep), currentPosition.y, E)
  }

  /** Turning right rotates the heading a quarter turn clockwise, turning
      left a quarter turn counter-clockwise. */
  lemma TurnsRotateHeading(p: Position)
    ensures Heading(TurnRight(p).direction) == RotateClockwise(Heading(p.direction))
    ensures RotateClockwise(Heading(TurnLeft(p).direction)) == Heading(p.direction)
  {
  }

  /** Turning left undoes turning right and the other way round. */
  lemma TurnsAreInverse(p: Position)
    ensures TurnLeft(TurnRight(p)) == p && TurnRight(TurnLeft(p)) == p
  {
  }

  /** Four quarter turns the same way are a full turn. */
  lemma FourTurnsAreIdentity(p: Position)
    ensures TurnRight(TurnRight(TurnRight(TurnRight(p)))) == p
    ensures TurnLeft(TurnLeft(TurnLeft(TurnLeft(p)))) == p
  {
  }

  /** Moving back undoes moving forward and the other way round, also where
      a coordinate wraps around. */
  lemma MovesAreInverse(p: Position)
    ensures MoveBackward(MoveForward(p)) == p
    ensures MoveForward(MoveBackward(p)) == p
  {
    ForwardThenBackward(p);
    BackwardThenForward(p);
  }

  lemma ForwardThenBackward(p: Position)
    ensures MoveBackward(MoveForward(p)) == p
  {
    match p.direction
    case N => WrapAddSub(p.y, -MovingStep);
    case S => WrapAddSub(p.y, MovingStep);
    case W => WrapAddSub(p.x, -MovingStep);
    case E => WrapAddSub(p.x, MovingStep);
  }

  lemma BackwardThenForward(p: Position)
    ensures MoveForward(MoveBackward(p)) == p
  {
    match p.direction
    case N => WrapAddSub(p.y, MovingStep);
    case S => WrapAddSub(p.y, -MovingStep);
    case W => WrapAddSub(p.x, MovingStep);
    case E => WrapAddSub(p.x, -MovingStep);
  }

  /** `GetNextPositionAsync`: the transition of the state machine. */
  function GetNextPosition(currentPosition: Position, routeStep: RouteStep): (r: Position)
    ensures routeStep.L? || routeStep.R? ==> r.x == currentPosition.x && r.y == currentPosition.y
    ensures routeStep.F? || routeStep.B? ==> r.direction == currentPosition.direction
  {
    match routeStep
    case F => MoveForward(currentPosition)
    case B => MoveBackward(currentPosition)
    case L => TurnLeft(currentPosition)
    case R => TurnRight(currentPosition)
  }

  /** The transition table read geometrically: `F` moves one unit along the
      heading and `B` one unit against it, both keeping the direction; `R`
      and `L` rotate the heading a quarter turn clockwise and
      counter-clockwise, keeping the coordinates. */
  lemma GetNextPositionTable(p: Position, routeStep: RouteStep)
    ensures var h := Heading(p.direction);
      routeStep.F? ==> GetNextPosition(p, routeStep) == Position(Wrap32(p.x + MovingStep * h.dx), Wrap32(p.y + MovingStep * h.dy), p.direction)
    ensures var h := Heading(p.direction);
      routeStep.B? ==> GetNextPosition(p, routeStep) == Position(Wrap32(p.x - MovingStep * h.dx), Wrap32(p.y - MovingStep * h.dy), p.direction)
    ensures routeStep.R? ==> var q := GetNextPosition(p, routeStep);
      q.x == p.x && q.y == p.y && Heading(q.direction) == RotateClockwise(Heading(p.direction))
    ensures routeStep.L? ==> var q := GetNextPosition(p, routeStep);
      q.x == p.x && q.y == p.y && RotateClockwise(Heading(q.direction)) == Heading(p.direction)
  {
    match routeStep
    case F =>
      var q := MoveForward(p);
      assert q == Position(q.x, q.y, q.direction);
    case B =>
      var q := MoveBackward(p);
      assert q == Position(q.x, q.y, q.direction);
    case R => TurnsRotateHeading(p);
    case L => TurnsRotateHeading(p);
  }

  /** The position after following `routeSteps` from `start`: the left fold
      of the transition. */
  function EndPoint(start: Position, routeSteps: seq<RouteStep>): Position
    decreases |routeSteps|
  {
    if routeSteps == [] then start
    else EndPoint(GetNextPosition(start, routeSteps[0]), routeSteps[1..])
  }

  /** Following `a` and then `b` ends where following `a + b` ends. */
  lemma {:induction false} EndPointConcat(start: Position, a: seq<RouteStep>, b: seq<RouteStep>)
    decreases |a|
    ensures EndPoint(start, a + b) == EndPoint(EndPoint(start, a), b)
  {
    if a == [] {
      assert a + b == b;
    } else {
      assert (a + b)[1..] == a[1..] + b;
      EndPointConcat(GetNextPosition(start, a[0]), a[1..], b);
    }
  }

  /** The clockwise index of a direction: N, E, S, W are 0, 1, 2, 3. */
  function Quadrant(d: Direction): int {
    match d
    case N => 0
    case E => 1
    case S => 2
    case W => 3
  }

  /** Right turns minus left turns in a route. */
  function NetRightTurns(routeSteps: seq<RouteStep>): int {
    if routeSteps == [] then 0
    else (match routeSteps[0] case R => 1 case L => -1 case _ => 0) + NetRightTurns(routeSteps[1..])
  }

  /** The final heading depends only on the net number of right turns, and
      a route without moves leaves the coordinates where they were. */
  lemma {:induction false} EndPointHeading(start: Position, routeSteps: seq<RouteStep>)
    decreases |routeSteps|
    ensures Quadrant(EndPoint(start, routeSteps).direction) == (Quadrant(start.direction) + NetRightTurns(routeSteps)) % 4
    ensures (forall i :: 0 <= i < |routeSteps| ==> routeSteps[i].L? || routeSteps[i].R?) ==>
      EndPoint(start, routeSteps).x == start.x && EndPoint(start, routeSteps).y == start.y
  {
    if routeSteps != [] {
      var next := GetNextPosition(start, routeSteps[0]);
      EndPointHeading(next, routeSteps[1..]);
      var q := Quadrant(start.direction);
      var t := NetRightTurns(routeSteps[1..]);
      match routeSteps[0]
      case R =>
        assert Quadrant(next.direction) == (q + 1) % 4;
        ShiftMod4(q + 1, t);
      case L =>
        assert Quadrant(next.direction) == (q + 3) % 4;
        ShiftMod4(q + 3, t);
        assert (q + 3 + t) % 4 == (q - 1 + t) % 4;
      case _ =>
    }
  }

  lemma ShiftMod4(a: int, t: int)
    ensures (a % 4 + t) % 4 == (a + t) % 4
  {
  }

  /** `CalculateRouteEndPointAsync`: appends each next position to the list
      of route coordinates and returns the last one. */
  method CalculateRouteEndPoint(startingPoint: Position, routeSteps: seq<RouteStep>) returns (endPosition: Position)
    ensures endPosition == EndPoint(startingPoint, routeSteps)
  {
    var routeCoordinates := [startingPoint];
    var i := 0;
    while i < |routeSteps|
      invariant 0 <= i <= |routeSteps|
      invariant |routeCoordinates| == i + 1
      invariant routeCoordinates[i] == EndPoint(startingPoint, routeSteps[..i])
    {
      var currentPosition := routeCoordinates[|routeCoordinates| - 1];
      var nextPosition := GetNextPosition(currentPosition, routeSteps[i]);
      routeCoordinates := routeCoordinates + [nextPosition];
      EndPointConcat(startingPoint, routeSteps[..i], [routeSteps[i]]);
      assert routeSteps[..i + 1] == routeSteps[..i] + [routeSteps[i]];
      i := i + 1;
    }
    assert routeSteps[..i] == routeSteps;
    endPosition := routeCoordinates[|routeCoordinates| - 1];
  }

  /** A step code: F, B, L or R in either case. */
  predicate IsStepCode(c: char) {
    c == 'F' || c == 'B' || c == 'L' || c == 'R' || c == 'f' || c == 'b' || c == 'l' || c == 'r'
  }

  /** `ValidateUnsupportedCharactersAsync` with the route-parse exception
      type: the step text holds letters only. */
  function ValidateUnsupportedCharacters(inputSymbols: string): (r: Outcome<Error>)
    ensures r.Pass? <==> AllLetters(inputSymbols)
    ensures r.Fail? ==> r.error == RouteParseError(NonLetterSteps)
  {
    if exists i :: 0 <= i < |inputSymbols| && !IsLetter(inputSymbols[i]) then Fail(RouteParseError(NonLetterSteps))
    else Pass
  }

  /** The body of the `foreach` in `ParseRouteAsync`: one character as a
      `RouteStep`, or the per-step parse error. */
  function ParseStep(c: char): (r: Result<RouteStep, Error>)
    ensures r.Success? <==> IsStepCode(c)
    ensures r.Success? ==> StepName(r.value) == [ToUpper(c)]
    ensures r.Failure? ==> r.error == RouteParseError(UnparsedStep(c))
  {
    EqualsIgnoreCaseSingle([c], 'F');
    EqualsIgnoreCaseSingle([c], 'B');
    EqualsIgnoreCaseSingle([c], 'L');
    EqualsIgnoreCaseSingle([c], 'R');
    match StepFromName([c])
    case None => Failure(RouteParseError(UnparsedStep(c)))
    case Some(s) => Success(s)
  }

  /** The `foreach` of `ParseRouteAsync` over the characters `steps`: one
      step per character, in order, or the error for the first character
      that is not a step code. */
  function ParseSteps(steps: string): (r: Result<seq<RouteStep>, Error>)
    ensures r.Success? <==> forall i :: 0 <= i < |steps| ==> IsStepCode(steps[i])
    ensures r.Success? ==>
      |r.value| == |steps| && forall i :: 0 <= i < |steps| ==> StepName(r.value[i]) == [ToUpper(steps[i])]
    ensures r.Failure? ==>
      exists k :: 0 <= k < |steps| && r == Failure(RouteParseError(UnparsedStep(steps[k])))
        && !IsStepCode(steps[k]) && forall j :: 0 <= j < k ==> IsStepCode(steps[j])
  {
    MapAll(steps, ParseStep)
  }

  /** Step codes are letters, so a text of step codes passes the letter
      check. */
  lemma StepCodesAreLetters(t: string)
    ensures (forall i :: 0 <= i < |t| ==> IsStepCode(t[i])) ==> AllLetters(t)
  {
  }

  /** What `ParseRouteAsync` returns for the step text `route`: no steps
      (`null`) for white space only; otherwise the trimmed text must hold
      letters only, and then each letter must be a step code, the first one
      that is not being reported. */
  function ParsedRoute(route: string): (r: Result<Option<seq<RouteStep>>, Error>)
    ensures r == Success(None) <==> IsNullOrWhiteSpace(route)
    ensures r.Success? <==> forall i :: 0 <= i < |Trim(route)| ==> IsStepCode(Trim(route)[i])
    ensures !AllLetters(Trim(route)) ==> r == Failure(RouteParseError(NonLetterSteps))
    ensures AllLetters(Trim(route)) && r.Failure? ==>
      exists k :: 0 <= k < |Trim(route)| && r == Failure(RouteParseError(UnparsedStep(Trim(route)[k])))
        && !IsStepCode(Trim(route)[k]) && forall j :: 0 <= j < k ==> IsStepCode(Trim(route)[j])
    ensures r.Success? && r.value.Some? ==>
      |r.value.value| == |Trim(route)| && forall i :: 0 <= i < |Trim(route)| ==> StepName(r.value.value[i]) == [ToUpper(Trim(route)[i])]
  {
    if IsNullOrWhiteSpace(route) then Success(None)
    else
      var unparsedRouteSteps := Trim(route);
      StepCodesAreLetters(unparsedRouteSteps);
      match ValidateUnsupportedCharacters(unparsedRouteSteps)
      case Fail(e) => Failure(e)
      case Pass =>
        match ParseSteps(unparsedRouteSteps)
        case Failure(e) => Failure(e)
        case Success(routeSteps) => Success(Some(routeSteps))
  }

  /** The `foreach` of `ParseRouteAsync`: fills the list of steps one
      character at a time, stopping at the first character that is not a
      step code. */
  method ParseUnparsedRouteSteps(unparsedRouteSteps: string) returns (r: Result<seq<RouteStep>, Error>)
    ensures r == ParseSteps(unparsedRouteSteps)
  {
    var routeSteps: seq<RouteStep> := [];
    var i := 0;
    while i < |unparsedRouteSteps|
      invariant 0 <= i <= |unparsedRouteSteps|
      invariant MapAll(unparsedRouteSteps[..i], ParseStep) == Success(routeSteps)
    {
      var routeStepToParse := unparsedRouteSteps[i];
      var parsed := ParseStep(routeStepToParse);
      if parsed.Failure? {
        MapAllStopsAt(unparsedRouteSteps, ParseStep, i);
        return Failure(parsed.error);
      }
      MapAllExtend(unparsedRouteSteps, ParseStep, i, routeSteps);
      routeSteps := routeSteps + [parsed.value];
      i := i + 1;
    }
    assert unparsedRouteSteps[..i] == unparsedRouteSteps;
    return Success(routeSteps);
  }

  /** `ParseRouteAsync`: no steps for blank text; otherwise the trimmed text
      is checked for letters and then parsed character by character. */
  method ParseRoute(route: string) returns (r: Result<Option<seq<RouteStep>>, Error>)
    ensures r == ParsedRoute(route)
  {
    if IsNullOrWhiteSpace(route) {
      return Success(None);
    }
    var unparsedRouteSteps := Trim(route);
    var validation := ValidateUnsupportedCharacters(unparsedRouteSteps);
    if validation.Fail? {
      return Failure(validation.error);
    }
    var routeSteps := ParseUnparsedRouteSteps(unparsedRouteSteps);
    if routeSteps.Failure? {
      return Failure(routeSteps.error);
    }
    return Success(Some(routeSteps.value));
  }

  /** What `CalculateRoutesEndPositionAsync` returns: the starting position
      when there are no steps, the end of the fold otherwise, or the step
      text's parse error. */
  function RoutesEndPosition(routeDto: Route): (r: Result<Position, Error>)
    ensures IsNullOrWhiteSpace(routeDto.routeSteps) ==> r == Success(routeDto.startingPosition)
    ensures r.Success? <==> forall i :: 0 <= i < |Trim(routeDto.routeSteps)| ==> IsStepCode(Trim(routeDto.routeSteps)[i])
    ensures r.Failure? ==> r.error.RouteParseError?
    ensures !AllLetters(Trim(routeDto.routeSteps)) ==> r == Failure(RouteParseError(NonLetterSteps))
    ensures var text := Trim(routeDto.routeSteps);
      AllLetters(text) && r.Failure? ==>
        exists k :: 0 <= k < |text| && r == Failure(RouteParseError(UnparsedStep(text[k])))
          && !IsStepCode(text[k]) && forall j :: 0 <= j < k ==> IsStepCode(text[j])
  {
    match ParsedRoute(routeDto.routeSteps)
    case Failure(e) => Failure(e)
    case Success(None) => Success(routeDto.startingPosition)
    case Success(Some(routeSteps)) => Success(EndPoint(routeDto.startingPosition, routeSteps))
  }

  /** A successful non-blank route ends where folding its steps, one per
      character of the trimmed text and named by that character's upper
      case, over the starting position ends. */
  lemma RoutesEndPositionIsFold(routeDto: Route)
    ensures var r := RoutesEndPosition(routeDto);
      r.Success? && !IsNullOrWhiteSpace(routeDto.routeSteps) ==>
      var text := Trim(routeDto.routeSteps);
      exists routeSteps: seq<RouteStep> :: |routeSteps| == |text|
        && (forall i :: 0 <= i < |text| ==> StepName(routeSteps[i]) == [ToUpper(text[i])])
        && r.value == EndPoint(routeDto.startingPosition, routeSteps)
  {
    var p := ParsedRoute(routeDto.routeSteps);
    if p.Success? && p.value.Some? {
      var routeSteps := p.value.value;
      assert RoutesEndPosition(routeDto).value == EndPoint(routeDto.startingPosition, routeSteps);
    }
  }

  /** `CalculateRoutesEndPositionAsync`. */
  method CalculateRoutesEndPosition(routeDto: Route) returns (r: Result<Position, Error>)
    ensures r == RoutesEndPosition(routeDto)
  {
    var routeSteps := ParseRoute(routeDto.routeSteps);
    if routeSteps.Failure? {
      return Failure(routeSteps.error);
    }
    if routeSteps.value.None? {
      return Success(routeDto.startingPosition);
    }
    var endPoint := CalculateRouteEndPoint(routeDto.startingPosition, routeSteps.value.value);
    return Success(endPoint);
  }

  /** Facing north at the origin, two steps forward, a right turn and two
      more steps end two squares east and two squares north, facing east. */
  lemma EndPointExample()
    ensures EndPoint(Position(0, 0, N), [F, F, R, F, F]) == Position(2, -2, E)
  {
  }
}
