/** The per-turn move policy of the bot (index.js): the "strictly longest" test,
    the three route helpers and the three-tier fallback of the `/move` handler. */
module Policy {
  import opened Wrappers
  import opened Game

  /** Below this health the bot always looks for food. */
  const LowHealth: int := 35

  /** The ways the `/move` handler throws instead of answering. */
  datatype MoveError =
    | NullTarget      // `target[0]` on a null target: TypeError
    | EmptyTarget     // `target[0]` is undefined on an empty list, so `.move` throws: TypeError
    | UtilNotDefined  // `util.isDeepStrictEqual` with `util` never bound: ReferenceError

  /** The three tiers of the fallback, in the order they are tried. */
  datatype Tier = FoodTier | TailTier | SurviveTier

  // ---------------------------------------------------------------------
  // isLongest
  // ---------------------------------------------------------------------

  /** The `filter` of isLongest: the snakes whose body differs element-wise
      from `you`'s body, each as often as it occurs on the board. */
  function EnemySnakes(snakes: seq<Snake>, you: Snake): (r: seq<Snake>)
    ensures |r| <= |snakes|
    ensures forall s :: s in r <==> s in snakes && s.body != you.body
    ensures forall s :: multiset(r)[s] == if s.body != you.body then multiset(snakes)[s] else 0
  {
    if snakes == [] then []
    else
      assert snakes == [snakes[0]] + snakes[1..];
      (if snakes[0].body != you.body then [snakes[0]] else []) + EnemySnakes(snakes[1..], you)
  }

  /** Reference meaning of "you are the longest snake": every snake on the board
      whose body differs from yours is strictly shorter than you. */
  predicate Longest(board: Board, you: Snake)
  {
    forall s :: s in board.snakes && s.body != you.body ==> |s.body| < |you.body|
  }

  /** isLongest: scan the other snakes and give up at the first one that is at
      least as long as you. */
  method IsLongest(board: Board, you: Snake) returns (longest: bool)
    ensures longest <==> Longest(board, you)
  {
    var enemySnakes := EnemySnakes(board.snakes, you);
    for i := 0 to |enemySnakes|
      invariant forall j :: 0 <= j < i ==> |enemySnakes[j].body| < |you.body|
    {
      if |enemySnakes[i].body| >= |you.body| {
        return false;
      }
    }
    return true;
  }

  /** Snakes whose body equals yours, `you` among them, never count against you:
      a board holding only such snakes makes you the longest. */
  lemma SameBodiesAreExcluded(board: Board, you: Snake)
    requires forall s :: s in board.snakes ==> s.body == you.body
    ensures Longest(board, you)
  {
  }

  /** Adding snakes with your body shape (say a second snake with an identical
      body) never changes the answer. */
  lemma TwinsDoNotMatter(board: Board, you: Snake, twins: seq<Snake>)
    requires forall t :: t in twins ==> t.body == you.body
    ensures Longest(board.(snakes := board.snakes + twins), you) == Longest(board, you)
  {
  }

  /** A snake with a different body and the same length or more, a tie
      included, means you are not the longest. */
  lemma TieIsNotLongest(board: Board, you: Snake, s: Snake)
    requires s in board.snakes && s.body != you.body
    requires |s.body| >= |you.body|
    ensures !Longest(board, you)
  {
  }

  /** "Longest" is strict: two snakes of one board that both pass the test have
      the same body. */
  lemma LongestIsUnique(board: Board, a: Snake, b: Snake)
    requires a in board.snakes && b in board.snakes
    requires Longest(board, a) && Longest(board, b)
    ensures a.body == b.body
  {
  }

  /** isLongest as written: `util` is never bound, so the filter's callback
      throws a ReferenceError the first time it runs, that is on every board
      that holds at least one snake. On an empty board it answers `true`. */
  function IsLongestAsWritten(board: Board, you: Snake): (r: Result<bool, MoveError>)
    ensures r.Failure? <==> |board.snakes| > 0
    ensures r.Failure? ==> r.error == UtilNotDefined
    ensures r.Success? ==> r.value == Longest(board, you)
  {
    if |board.snakes| > 0 then Failure(UtilNotDefined) else Success(true)
  }

  /** The board the game sends always holds `you`, so the as-written test
      throws where the intended one answers `true`. */
  lemma IsLongestAsWrittenThrows(you: Snake)
    ensures IsLongestAsWritten(Board(11, 11, [], [you]), you) == Failure(UtilNotDefined)
    ensures Longest(Board(11, 11, [], [you]), you)
  {
  }

  // ---------------------------------------------------------------------
  // The three route helpers
  // ---------------------------------------------------------------------

  /** foodPath: no food means no route; otherwise the route towards that food. */
  function FoodPath(p: Pathfinding, board: Board, you: Snake): Option<seq<Move>>
  {
    match p.findClosestFood(board, you)
    case None => None
    case Some(food) => p.closestToFood(board, you, food)
  }

  /** chaseTail: a route towards the last cell of your body. */
  function ChaseTail(p: Pathfinding, board: Board, you: Snake): Option<seq<Move>>
  {
    p.findRoute(board, you, At(you.body, |you.body| - 1))
  }

  /** survive: the possible moves from your head. */
  function Survive(p: Pathfinding, board: Board, you: Snake): Option<seq<Move>>
  {
    p.getPossibleMoves(board, At(you.body, 0))
  }

  /** Without food foodPath answers null and whatever `closestToFood` would say
      is irrelevant; with food it answers exactly what `closestToFood` says. */
  lemma FoodPathConsultsRouteOnlyWithFood(
    p: Pathfinding, board: Board, you: Snake, other: (Board, Snake, Point) -> Option<seq<Move>>)
    ensures p.findClosestFood(board, you).None? ==>
      FoodPath(p, board, you) == None && FoodPath(p.(closestToFood := other), board, you) == None
    ensures p.findClosestFood(board, you).Some? ==>
      FoodPath(p, board, you) == p.closestToFood(board, you, p.findClosestFood(board, you).value)
  {
  }

  /** chaseTail aims at the tail, `you.body[|you.body| - 1]`; an empty body
      hands `findRoute` an undefined target. */
  lemma ChaseTailTargetsTail(p: Pathfinding, board: Board, you: Snake)
    ensures |you.body| > 0 ==>
      ChaseTail(p, board, you) == p.findRoute(board, you, Some(you.body[|you.body| - 1]))
    ensures |you.body| == 0 ==> ChaseTail(p, board, you) == p.findRoute(board, you, None)
  {
  }

  /** survive asks for the moves from the head, `you.body[0]`; an empty body
      hands `getPossibleMoves` an undefined cell. */
  lemma SurviveStartsAtHead(p: Pathfinding, board: Board, you: Snake)
    ensures |you.body| > 0 ==> Survive(p, board, you) == p.getPossibleMoves(board, Some(you.body[0]))
    ensures |you.body| == 0 ==> Survive(p, board, you) == p.getPossibleMoves(board, None)
  {
  }

  // ---------------------------------------------------------------------
  // The fallback of the /move handler
  // ---------------------------------------------------------------------

  /** The condition for trying the food tier. */
  predicate FoodWanted(board: Board, you: Snake)
  {
    you.health < LowHealth || !Longest(board, you)
  }

  /** What `target` holds after the food tier: foodPath's answer when the tier
      is entered, null otherwise. */
  function FoodTierResult(p: Pathfinding, board: Board, you: Snake): Option<seq<Move>>
  {
    if FoodWanted(board, you) then FoodPath(p, board, you) else None
  }

  /** The answers of the three tiers, in the order they are tried. */
  function TierResults(p: Pathfinding, board: Board, you: Snake): (r: seq<Option<seq<Move>>>)
    ensures |r| == 3
  {
    [FoodTierResult(p, board, you), ChaseTail(p, board, you), Survive(p, board, you)]
  }

  /** The first present value of `xs`, or None when there is none. */
  function FirstSome<T(==)>(xs: seq<Option<T>>): (r: Option<T>)
    ensures r.None? <==> forall i :: 0 <= i < |xs| ==> xs[i].None?
    ensures r.Some? ==> exists i :: 0 <= i < |xs| && xs[i] == r && forall j :: 0 <= j < i ==> xs[j].None?
  {
    if xs == [] then None
    else if xs[0].Some? then xs[0]
    else
      var r := FirstSome(xs[1..]);
      assert r.Some? ==> exists i :: 1 <= i < |xs| && xs[i] == r && forall j :: 0 <= j < i ==> xs[j].None? by {
        if r.Some? {
          var i :| 0 <= i < |xs[1..]| && xs[1..][i] == r && forall j :: 0 <= j < i ==> xs[1..][j].None?;
          assert forall j :: 0 <= j < i + 1 ==> xs[j].None? by {
            forall j | 0 <= j < i + 1 ensures xs[j].None? {
              if j > 0 { assert xs[j] == xs[1..][j - 1]; }
            }
          }
          assert xs[i + 1] == r;
        }
      }
      r
  }

  /** The first present value is the one at the first index that holds one. */
  lemma FirstSomeAt<T>(xs: seq<Option<T>>, k: nat)
    requires k < |xs| && xs[k].Some?
    requires forall j :: 0 <= j < k ==> xs[j].None?
    ensures FirstSome(xs) == xs[k]
  {
  }

  /** `target[0].move`: a null target and an empty list both throw. */
  function MoveOf(target: Option<seq<Move>>): (r: Result<Dir, MoveError>)
    ensures r.Success? <==> target.Some? && |target.value| > 0
    ensures r.Success? ==> r.value == target.value[0].move
    ensures r.Failure? ==> r.error == (if target.None? then NullTarget else EmptyTarget)
  {
    match target
    case None => Failure(NullTarget)
    case Some(moves) => if |moves| == 0 then Failure(EmptyTarget) else Success(moves[0].move)
  }

  /** The reference meaning of the handler: the move of the first tier that
      answered something other than null. */
  function Decide(p: Pathfinding, board: Board, you: Snake): Result<Dir, MoveError>
  {
    MoveOf(FirstSome(TierResults(p, board, you)))
  }

  /** The decision logic of the `/move` handler: `target` starts null and is
      reassigned by each tier that is reached. `attempted` records which tiers
      ran, in order. */
  method ChooseMove(p: Pathfinding, board: Board, you: Snake)
    returns (r: Result<Dir, MoveError>, ghost attempted: seq<Tier>)
    ensures r == Decide(p, board, you)
    ensures attempted ==
      (if FoodWanted(board, you) then [FoodTier] else [])
      + (if FoodTierResult(p, board, you).None? then [TailTier] else [])
      + (if FoodTierResult(p, board, you).None? && ChaseTail(p, board, you).None? then [SurviveTier] else [])
  {
    var target: Option<seq<Move>> := None;
    attempted := [];
    // `||` short-circuits: isLongest runs only for a healthy snake
    var wantFood := you.health < LowHealth;
    if !wantFood {
      var longest := IsLongest(board, you);
      wantFood := !longest;
    }
    if wantFood {
      target := FoodPath(p, board, you);
      attempted := attempted + [FoodTier];
    }
    if target.None? {
      target := ChaseTail(p, board, you);
      attempted := attempted + [TailTier];
    }
    if target.None? {
      target := Survive(p, board, you);
      attempted := attempted + [SurviveTier];
    }
    r := MoveOf(target);
    ghost var xs := TierResults(p, board, you);
    if xs[0].Some? {
      FirstSomeAt(xs, 0);
    } else if xs[1].Some? {
      FirstSomeAt(xs, 1);
    } else if xs[2].Some? {
      FirstSomeAt(xs, 2);
    }
  }

  /** The emitted move is `target[0].move` of the first tier whose answer is
      not null; an empty list there throws even when a later tier has moves. */
  lemma DecideIsFirstNonNullTier(p: Pathfinding, board: Board, you: Snake, k: nat)
    requires k < 3 && TierResults(p, board, you)[k].Some?
    requires forall j :: 0 <= j < k ==> TierResults(p, board, you)[j].None?
    ensures Decide(p, board, you) == MoveOf(TierResults(p, board, you)[k])
    ensures |TierResults(p, board, you)[k].value| == 0 <==> Decide(p, board, you) == Failure(EmptyTarget)
  {
  }

  /** The handler throws on a null target exactly when all three tiers answered null. */
  lemma NullTargetIffNoTierAnswers(p: Pathfinding, board: Board, you: Snake)
    ensures Decide(p, board, you) == Failure(NullTarget) <==>
      FoodTierResult(p, board, you).None? && ChaseTail(p, board, you).None? && Survive(p, board, you).None?
  {
    var xs := TierResults(p, board, you);
    assert xs[0] == FoodTierResult(p, board, you) && xs[1] == ChaseTail(p, board, you)
      && xs[2] == Survive(p, board, you);
  }

  /** A hungry snake follows its food route, however long it is. */
  lemma LowHealthSeeksFood(p: Pathfinding, board: Board, you: Snake, moves: seq<Move>)
    requires you.health < LowHealth
    requires FoodPath(p, board, you) == Some(moves) && |moves| > 0
    ensures Decide(p, board, you) == Success(moves[0].move)
  {
  }

  /** A healthy, strictly longest snake follows a non-empty route to its tail. */
  lemma HealthyLongestChasesTail(p: Pathfinding, board: Board, you: Snake, moves: seq<Move>)
    requires you.health >= LowHealth && Longest(board, you)
    requires ChaseTail(p, board, you) == Some(moves) && |moves| > 0
    ensures Decide(p, board, you) == Success(moves[0].move)
  {
    DecideIsFirstNonNullTier(p, board, you, 1);
  }

  /** A healthy, strictly longest snake skips the food tier: neither food helper
      has any say in the move. */
  lemma HealthyLongestIgnoresFood(
    p: Pathfinding, board: Board, you: Snake,
    food: (Board, Snake) -> Option<Point>, toFood: (Board, Snake, Point) -> Option<seq<Move>>)
    requires you.health >= LowHealth && Longest(board, you)
    ensures Decide(p.(findClosestFood := food, closestToFood := toFood), board, you) == Decide(p, board, you)
  {
  }

  /** Once the food tier has answered, neither `findRoute` nor `getPossibleMoves`
      has any say in the move. */
  lemma FoodAnswerEndsFallback(
    p: Pathfinding, board: Board, you: Snake,
    route: (Board, Snake, Option<Point>) -> Option<seq<Move>>, possible: (Board, Option<Point>) -> Option<seq<Move>>)
    requires FoodTierResult(p, board, you).Some?
    ensures Decide(p.(findRoute := route, getPossibleMoves := possible), board, you) == Decide(p, board, you)
  {
  }

  /** Once the food or tail tier has answered, `getPossibleMoves` has no say in the move. */
  lemma RouteAnswerSkipsSurvive(
    p: Pathfinding, board: Board, you: Snake, possible: (Board, Option<Point>) -> Option<seq<Move>>)
    requires FoodTierResult(p, board, you).Some? || ChaseTail(p, board, you).Some?
    ensures Decide(p.(getPossibleMoves := possible), board, you) == Decide(p, board, you)
  {
    var q := p.(getPossibleMoves := possible);
    assert FoodTierResult(q, board, you) == FoodTierResult(p, board, you);
    assert ChaseTail(q, board, you) == ChaseTail(p, board, you);
    var k := if FoodTierResult(p, board, you).Some? then 0 else 1;
    DecideIsFirstNonNullTier(p, board, you, k);
    DecideIsFirstNonNullTier(q, board, you, k);
  }

  /** The handler as written: a snake with health at least LowHealth reaches
      isLongest, which throws on any board that holds a snake. */
  function DecideAsWritten(p: Pathfinding, board: Board, you: Snake): (r: Result<Dir, MoveError>)
    ensures you.health < LowHealth || |board.snakes| == 0 ==> r == Decide(p, board, you)
    ensures you.health >= LowHealth && |board.snakes| > 0 ==> r == Failure(UtilNotDefined)
  {
    if you.health < LowHealth then Decide(p, board, you)
    else
      match IsLongestAsWritten(board, you)
      case Failure(e) => Failure(e)
      case Success(_) => Decide(p, board, you)
  }

  /** A healthy snake alone on the board whose tail route is one step: the
      intended handler answers that step, the handler as written throws. */
  lemma HealthyTurnThrowsAsWritten()
    ensures var you := Snake([Point(5, 5), Point(5, 6)], 90);
      var board := Board(11, 11, [], [you]);
      var step := Move(Point(5, 4), Up);
      var p := Pathfinding((b, s) => None, (b, s, f) => None, (b, s, t) => Some([step]), (b, h) => None);
      DecideAsWritten(p, board, you) == Failure(UtilNotDefined) && Decide(p, board, you) == Success(Up)
  {
  }
}
