# Battlesnake 2019 move policy, modelled in Dafny

The bot plays Battlesnake: on every turn the game server POSTs the board to
`/move` and the bot answers one of `up`, `down`, `left`, `right`. This project
models the bot's per-turn decision in `index.js`:

- `isLongest(board, you)`: filter out every snake whose body equals yours,
  then fail at the first remaining snake that is at least as long as you.
- the helpers `foodPath`, `chaseTail` and `survive`;
- the three-tier fallback of the `/move` handler: a food route (when
  `you.health < 35` or you are not the longest), else a route to your own tail,
  else the raw possible moves from your head. The answer is `target[0].move`
  of the first tier whose result is not null.

Files:

- `wrappers.dfy`: `Option` (null/undefined versus a value) and `Result`
  (an answer versus a thrown exception).
- `game.dfy`: points, snakes, the board, directions and moves. JavaScript's
  out-of-range indexing is `At`. `Pathfinding` holds the four helpers of
  `app/pathfinding`. `app/pathfinding` is not part of this model, so every
  helper is a parameter: a pure, total function of its arguments about which
  nothing else is assumed. Every lemma holds for all such functions.
- `policy.dfy`: the policy itself, with the following pieces.
  - `Longest` is the reference meaning of "strictly longest".
  - `IsLongest` is the loop with its early return, proved equal to `Longest`.
  - `Decide` is the reference meaning of the handler.
  - `ChooseMove` is the handler's step-by-step reassignment of `target`,
    proved equal to `Decide`. It also records which tiers ran.

The handler's exceptions are modelled as `Failure` values rather than
preconditions:

- `target[0]` on a null target (`NullTarget`);
- `.move` of the `undefined` that `target[0]` gives on an empty list
  (`EmptyTarget`);
- the unbound `util` (`UtilNotDefined`, see Findings).

An empty list from any tier counts as an answer: it ends the fallback, and
the handler then throws.

- The handler has no default direction. When no tier yields a move, the
  handler throws; it does not answer a fixed direction.
- The answer is `target[0].move` of the helper's move list.

## Model

| member | source | states |
|---|---|---|
| Policy.EnemySnakes | index.js:32-34 | the filtered list holds exactly the board's snakes whose body differs element-wise from `you.body`, each as often as on the board (duplicates kept), and is no longer than the board's list |
| Policy.IsLongest | index.js:31-42 | the loop with early `return false` answers true iff every snake whose body differs from yours is strictly shorter than you |
| Policy.SameBodiesAreExcluded | index.js:32-34 | snakes with your body, yourself included, are excluded, so a board holding only you (or only copies of your body) makes you the longest |
| Policy.TwinsDoNotMatter | index.js:32-34 | adding snakes whose body equals yours never changes the answer (the identical-body ambiguity: such snakes are treated as yourself) |
| Policy.TieIsNotLongest | index.js:37-38 | another snake of equal or greater length (`>=`) makes you not the longest |
| Policy.LongestIsUnique | index.js:36-41 | two snakes of one board that both pass the test have equal bodies: the test is strict |
| Policy.IsLongestAsWritten | index.js:33 | as written the filter callback throws on any board with at least one snake; on an empty board it agrees with `Longest` |
| Policy.IsLongestAsWrittenThrows | index.js:32-34 | on the board holding only you, the as-written test throws while the intended test answers true |
| Game.At | index.js:46 | JavaScript indexing of a body (used at index.js:46 and 51): a cell exactly when the index is in range, and then the cell at that index; `undefined` otherwise |
| Policy.FoodPath | index.js:24-29 | foodPath; its contract is stated by `FoodPathConsultsRouteOnlyWithFood` |
| Policy.ChaseTail | index.js:50-53 | chaseTail; its contract is stated by `ChaseTailTargetsTail` |
| Policy.Survive | index.js:45-48 | survive; its contract is stated by `SurviveStartsAtHead` |
| Policy.FoodPathConsultsRouteOnlyWithFood | index.js:24-29 | with no food the result is null whatever `closestToFood` is; with food it is exactly `closestToFood(board, you, food)` |
| Policy.ChaseTailTargetsTail | index.js:50-53 | the tail tier asks `findRoute` for the last body cell (an undefined target when the body is empty) |
| Policy.SurviveStartsAtHead | index.js:45-48 | the survive tier asks `getPossibleMoves` from the head `you.body[0]` (undefined when the body is empty) |
| Policy.FirstSome | index.js:77-83 | the chain's result is null iff every tier answered null, and otherwise it is the answer of a tier all of whose predecessors answered null |
| Policy.FirstSomeAt | index.js:77-83 | the chain's result is the answer of the first tier that answered non-null |
| Policy.MoveOf | index.js:85 | `target[0].move` yields a direction iff the target is a non-empty list, and then it is the first move's label; a null target and an empty list throw |
| Policy.ChooseMove | index.js:70-85 | the handler's answer equals `Decide`; the food tier runs iff health < 35 or not longest; the tail tier runs iff `target` is null after it; survive runs iff both are null |
| Policy.DecideIsFirstNonNullTier | index.js:77-85 | the answer is `target[0].move` of the first non-null tier; an empty list there throws even if a later tier has moves |
| Policy.NullTargetIffNoTierAnswers | index.js:81-85 | the handler throws on a null target exactly when all three tiers answered null |
| Policy.LowHealthSeeksFood | index.js:73-74 | with health below 35 a non-empty food route decides the move, even for the longest snake |
| Policy.HealthyLongestChasesTail | index.js:73-79 | with health at least 35 and strictly longest, a non-empty route to the tail decides the move |
| Policy.HealthyLongestIgnoresFood | index.js:73-75 | with health at least 35 and strictly longest, replacing both food helpers leaves the move unchanged |
| Policy.FoodAnswerEndsFallback | index.js:77-83 | once the food tier answered non-null, replacing `findRoute` and `getPossibleMoves` leaves the move unchanged |
| Policy.RouteAnswerSkipsSurvive | index.js:81-83 | once the food or tail tier answered non-null, replacing `getPossibleMoves` leaves the move unchanged |
| Policy.DecideAsWritten | index.js:70-85 | as written the handler throws for every healthy snake on a non-empty board, and otherwise agrees with `Decide` |
| Policy.HealthyTurnThrowsAsWritten | index.js:73 | a concrete turn (health 90, alone on an 11x11 board, tail route one step up): intended answer `up`, as written an exception |

## Findings

| source | as written | input that shows it | evidently intended | confidence | as-written member | corrected member |
|---|---|---|---|---|---|---|
| index.js:33 | `util.isDeepStrictEqual` is called but `util` is never `require`d. The filter callback therefore throws a ReferenceError. `board.snakes` always holds `you`, so this happens on every turn where `you.health >= 35`. | any `/move` request with `you.health >= 35`, e.g. health 90 alone on the board (`HealthyTurnThrowsAsWritten`) | element-wise comparison of the two bodies (`require('util')`) | not executed; high | Policy.IsLongestAsWritten | Policy.IsLongest |

The corrected `IsLongest` (element-wise body equality) is the one used by
`ChooseMove` and `Decide`. `DecideAsWritten` shows the effect on the whole
handler.

## Left out

- Express setup, middleware, port configuration and `app.listen` (index.js:1-21, 107-113): transport plumbing, no decision logic.
- The `/start`, `/end` and `/ping` handlers (index.js:56-65, 95-103): constant responses.
- Building the JSON response (index.js:88-92): only the chosen direction is modelled.
- The internals of `app/pathfinding` (A* search, legal-move generation and its order, nearest food): that code is not part of this model. Its four helpers are unconstrained parameters. As a result nothing is proved about route legality, route length or the down/up/right/left candidate order.
- JavaScript's loose typing: health is an integer and bodies are lists of integer points. A missing `health` makes `you.health < 35` false in JavaScript; this case is not modelled.
- The four `app/pathfinding` helpers are modelled as pure, total functions of their arguments. An exception raised inside them (for instance `findRoute` handed the `undefined` tail of an empty body, index.js:51-52) and state shared between calls within one turn are not captured; the lemmas about the fallback order hold under that reading.
- Snake identity: `you` and the board's copy of it are told apart only by body equality, as the code does. No identity token is modelled.
- Policy.ChooseMove: `attempted` is ghost and records only which tiers ran. It states nothing about how often each helper is called. The replacement lemmas (`HealthyLongestIgnoresFood`, `FoodAnswerEndsFallback`, `RouteAnswerSkipsSurvive`) state that a tier which did not run has no influence.
