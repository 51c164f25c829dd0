/** The board snapshot the game server sends with every turn, and the
    interface of the pathfinding helpers that the move policy calls. */
module Game {
  import opened Wrappers

  /** A grid cell; equality is value equality on both coordinates. */
  datatype Point = Point(x: int, y: int)

  /** A snake: its body from head (index 0) to tail (last index), and its health. */
  datatype Snake = Snake(body: seq<Point>, health: int)

  /** One turn's snapshot of the board. */
  datatype Board = Board(width: int, height: int, food: seq<Point>, snakes: seq<Snake>)

  /** The four direction labels of the game protocol. */
  datatype Dir = Up | Down | Left | Right

  /** A candidate step: the cell it reaches and the direction label that reaches it. */
  datatype Move = Move(dest: Point, move: Dir)

  /** JavaScript indexing `s[i]` of a body: `undefined` (here `None`) outside `0 .. |s| - 1`. */
  function At(s: seq<Point>, i: int): (r: Option<Point>)
    ensures r.Some? <==> 0 <= i < |s|
    ensures r.Some? ==> r.value == s[i]
  {
    if 0 <= i < |s| then Some(s[i]) else None
  }

  /** The helpers of `app/pathfinding` that the policy calls. Their code is not part
      of this model, so they are parameters, each a pure, total function of its
      arguments: the properties proved below hold for every choice of such
      functions. A helper that throws, or that keeps state between calls, is not
      captured. A `None` result stands for `null`/`undefined`. */
  datatype Pathfinding = Pathfinding(
    /** `findClosestFood(board, you)`: the food point to head for, if any. */
    findClosestFood: (Board, Snake) -> Option<Point>,
    /** `closestToFood(board, you, food)`: a list of moves towards `food`. */
    closestToFood: (Board, Snake, Point) -> Option<seq<Move>>,
    /** `findRoute(board, you, target)`: a list of moves towards `target`
        (which is `undefined` when the caller indexed outside the body). */
    findRoute: (Board, Snake, Option<Point>) -> Option<seq<Move>>,
    /** `getPossibleMoves(board, from)`: the legal moves from `from`. */
    getPossibleMoves: (Board, Option<Point>) -> Option<seq<Move>>)
}
