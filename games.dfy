/**
 * The Snake mini-game: a session that moves ready -> countdown -> running ->
 * over, a snake on an 18 x 18 grid, a score that becomes a point multiplier,
 * and a one-time credit of the result to the ledger.
 *
 * `Game` is the whole state of the game module (the session, which is absent
 * when `active` is false, and the module fields: the last direction, the
 * queued direction and the two timers). The pure transitions below are the
 * specification; class `SnakeGame` holds the same state in fields and its
 * methods are proved to perform them. Timers are explicit: `tickPending`
 * stands for a scheduled movement tick and `countdownActive` for the running
 * countdown interval; their callbacks are the methods `Tick` and
 * `CountdownStep`. Random food positions come from an injected list of draws.
 */
module Games {
  import opened Wrappers
  import opened Text
  import Points

  const GridSize := 18
  const CountdownSeconds := 5
  const MinTickMs := 90
  const MaxTickMs := 190
  /** Swipes shorter than this many pixels on both axes are ignored. */
  const SwipeThreshold := 12
  /** The only game name the launcher accepts, after trimming and lower-casing. */
  const GameName := "snake"

  datatype Cell = Cell(x: int, y: int)
  datatype Dir = Dir(dx: int, dy: int)
  datatype Status = Ready | Countdown | Running | Over

  const Up := Dir(0, -1)
  const Down := Dir(0, 1)
  const Left := Dir(-1, 0)
  const Right := Dir(1, 0)

  /** The snake of a new session, head first, moving right. */
  const StartSnake := [Cell(7, 9), Cell(6, 9), Cell(5, 9)]

  lemma StartSnakeValid()
    ensures |StartSnake| == 3 && AllInGrid(StartSnake) && NoRepeats(StartSnake)
  {
  }

  /** A credit the game books on the ledger: points and the reason text. */
  datatype Award = Award(points: int, reason: string)

  datatype Game = Game(
    active: bool,
    basePoints: int, score: nat, snake: seq<Cell>, dir: Dir, food: Cell, status: Status, awarded: bool,
    lastDir: Dir, queuedDir: Option<Dir>,
    tickPending: bool, tickDelay: int, countdownActive: bool, countdownRemaining: int)

  predicate InGrid(c: Cell) {
    0 <= c.x < GridSize && 0 <= c.y < GridSize
  }

  predicate AllInGrid(cells: seq<Cell>) {
    forall i :: 0 <= i < |cells| ==> InGrid(cells[i])
  }

  predicate NoRepeats(cells: seq<Cell>) {
    forall i, j :: 0 <= i < j < |cells| ==> cells[i] != cells[j]
  }

  function Step(c: Cell, d: Dir): Cell {
    Cell(c.x + d.dx, c.y + d.dy)
  }

  /**
   * What holds of every reachable state: a live snake lies on the grid,
   * never overlaps itself and is three cells plus one per point of score
   * long, and its food lies on the grid; a pending timer belongs to a live
   * session.
   */
  ghost predicate ValidGame(g: Game) {
    && (g.active ==>
          && |g.snake| == 3 + g.score
          && AllInGrid(g.snake)
          && NoRepeats(g.snake)
          && InGrid(g.food)
          && g.basePoints >= 0)
    && (g.tickPending ==> g.active)
    && (g.countdownActive ==> g.active)
  }

  // ----- scoring -----

  /**
   * `getMultiplier` in tenths: `1 + 0.15 * score` rounded to one decimal and
   * clamped to [1.0, 2.5].
   */
  function Multiplier(score: nat): (tenths: int)
    ensures 10 <= tenths <= 25
    ensures score >= 10 ==> tenths == 25
  {
    var raw := (21 + 3 * score) / 2;
    if raw > 25 then 25 else raw
  }

  /** A higher score never gives a lower multiplier. */
  lemma MultiplierMonotone(s1: nat, s2: nat)
    requires s1 <= s2
    ensures Multiplier(s1) <= Multiplier(s2)
  {
    assert (21 + 3 * s1) / 2 <= (21 + 3 * s2) / 2;
  }

  /** The points a session is worth: `max(0, round(base * multiplier))`. */
  function FinalPoints(basePoints: int, score: nat): (points: nat)
    ensures basePoints >= 0 ==> basePoints <= points <= (basePoints * 25 + 5) / 10
  {
    var t := Multiplier(score);
    assert basePoints >= 0 ==> basePoints * 10 <= basePoints * t <= basePoints * 25 by {
      if basePoints >= 0 {
        assert basePoints * t - basePoints * 10 == basePoints * (t - 10);
        assert basePoints * 25 - basePoints * t == basePoints * (25 - t);
      }
    }
    Points.Max0((basePoints * t + 5) / 10)
  }

  /** The scoring scenario: base 100 and score 4 give multiplier 1.6 and 160 points. */
  lemma ScoringScenario()
    ensures Multiplier(4) == 16
    ensures FinalPoints(100, 4) == 160
  {
  }

  /** `getTickMs`: from 190 ms at multiplier 1.0 down to 90 ms at 2.5, clamped at both ends. */
  function TickMs(tenths: int): (ms: int)
    ensures MinTickMs <= ms <= MaxTickMs
    ensures tenths <= 10 ==> ms == MaxTickMs
    ensures tenths >= 25 ==> ms == MinTickMs
  {
    var c := if tenths < 10 then 10 else if tenths > 25 then 25 else tenths;
    (1143 - 40 * (c - 10)) / 6
  }

  /** A larger multiplier never gives a longer tick. */
  lemma TickMsMonotone(t1: int, t2: int)
    requires t1 <= t2
    ensures TickMs(t2) <= TickMs(t1)
  {
    var c1 := if t1 < 10 then 10 else if t1 > 25 then 25 else t1;
    var c2 := if t2 < 10 then 10 else if t2 > 25 then 25 else t2;
    assert 1143 - 40 * (c2 - 10) <= 1143 - 40 * (c1 - 10);
  }

  /** `multiplier.toFixed(1)` for a multiplier given in tenths. */
  function TenthsText(tenths: nat): string {
    NatToString(tenths / 10) + "." + NatToString(tenths % 10)
  }

  /** The reason a game credit is booked under. */
  function AwardReason(score: nat): (reason: string)
    ensures |reason| > 3 && reason[..3] == "QR-" && reason[3] == 'G'
  {
    "QR-Game Snake (" + NatToString(score) + " Score, " + TenthsText(Multiplier(score)) + "x)"
  }

  /** A game credit never carries the scan reason, so the double-points window never doubles it. */
  lemma AwardNeverBoosted(score: nat, now: int, until: int, points: int)
    ensures AwardReason(score) != Points.ScanReason
    ensures Points.ApplyDoublePoints(points, Points.EarnReason(AwardReason(score)), now, until) == points
  {
    assert Points.ScanReason[3] == 'S';
  }

  // ----- food -----

  /** The `spawnFood` loop: the first drawn cell that is not occupied. */
  function FirstFreeDraw(draws: seq<Cell>, occupied: seq<Cell>): (r: Option<Cell>)
    ensures r.Some? ==> r.value !in occupied && r.value in draws
    ensures r.None? <==> forall k :: 0 <= k < |draws| ==> draws[k] in occupied
    ensures r.Some? ==> exists k :: 0 <= k < |draws| && draws[k] == r.value && forall j :: 0 <= j < k ==> draws[j] in occupied
  {
    if draws == [] then None
    else if draws[0] !in occupied then Some(draws[0])
    else
      var rest := FirstFreeDraw(draws[1..], occupied);
      assert rest.Some? ==> exists k :: 0 <= k < |draws| && draws[k] == rest.value
                                      && forall j :: 0 <= j < k ==> draws[j] in occupied by {
        if rest.Some? {
          var k :| 0 <= k < |draws[1..]| && draws[1..][k] == rest.value
                   && forall j :: 0 <= j < k ==> draws[1..][j] in occupied;
          assert draws[k + 1] == rest.value;
          assert forall j :: 0 <= j < k + 1 ==> draws[j] in occupied by {
            forall j | 0 <= j < k + 1 ensures draws[j] in occupied {
              if j > 0 { assert draws[j] == draws[1..][j - 1]; }
            }
          }
        }
      }
      rest
  }

  /** With nothing on the grid the first draw is taken. */
  lemma FirstDrawOnEmptyGrid(draws: seq<Cell>)
    requires |draws| > 0
    ensures FirstFreeDraw(draws, []) == Some(draws[0])
  {
  }

  // ----- directions -----

  /** `canChangeDir`: anything but the exact reverse of the last direction. */
  predicate CanChangeDir(next: Dir, last: Dir) {
    !(next.dx == -last.dx && next.dy == -last.dy)
  }

  function Abs(v: int): nat {
    if v < 0 then -v else v
  }

  /** `handleSwipe`: short swipes are ignored, otherwise the dominant axis decides; a tie goes to the vertical axis. */
  function SwipeDir(dx: int, dy: int): (d: Option<Dir>)
    ensures d.None? <==> -SwipeThreshold < dx < SwipeThreshold && -SwipeThreshold < dy < SwipeThreshold
    ensures d.Some? ==> d.value in {Up, Down, Left, Right}
    ensures d.Some? && Abs(dx) > Abs(dy) ==> d.value == (if dx > 0 then Right else Left)
    ensures d.Some? && Abs(dx) <= Abs(dy) ==> d.value == (if dy > 0 then Down else Up)
  {
    var ax := if dx < 0 then -dx else dx;
    var ay := if dy < 0 then -dy else dy;
    if ax < SwipeThreshold && ay < SwipeThreshold then None
    else if ax > ay then Some(Dir(if dx > 0 then 1 else -1, 0))
    else Some(Dir(0, if dy > 0 then 1 else -1))
  }

  /** A swipe of at least the threshold straight along a direction selects that direction. */
  lemma SwipeAlongDirection(d: Dir, length: int)
    requires d in {Up, Down, Left, Right} && length >= SwipeThreshold
    ensures SwipeDir(d.dx * length, d.dy * length) == Some(d)
  {
  }

  /** Swiping the opposite way selects the opposite direction. */
  lemma SwipeReversed(dx: int, dy: int)
    ensures SwipeDir(-dx, -dy).None? <==> SwipeDir(dx, dy).None?
    ensures SwipeDir(dx, dy).Some? ==>
      SwipeDir(-dx, -dy) == Some(Dir(-SwipeDir(dx, dy).value.dx, -SwipeDir(dx, dy).value.dy))
  {
  }

  // ----- transitions -----

  /** The module state when the page loads: no session, no timers. */
  function Initial(): (g: Game)
    ensures ValidGame(g) && !g.active
  {
    Game(false, 0, 0, [], Right, Cell(0, 0), Ready, false, Right, None, false, 0, false, 0)
  }

  /** `initState(points)`: a fresh session with the food on the first draw. */
  function Initialized(g: Game, points: int, draws: seq<Cell>): (h: Game)
    requires |draws| > 0 && AllInGrid(draws)
    ensures ValidGame(h) && h.active && h.status == Ready && h.score == 0 && !h.awarded
    ensures h.snake == StartSnake && h.dir == Right && h.lastDir == Right && h.queuedDir == None
    ensures h.basePoints == Points.Max0(points) && h.food == draws[0]
    ensures h.tickPending == g.tickPending && h.countdownActive == g.countdownActive
  {
    FirstDrawOnEmptyGrid(draws);
    var food := FirstFreeDraw(draws, []).value;
    StartSnakeValid();
    g.(active := true, basePoints := Points.Max0(points), score := 0, snake := StartSnake, dir := Right,
       food := food, status := Ready, awarded := false, lastDir := Right, queuedDir := None)
  }

  /** `launchGame`: only a game named `snake` (any case, any surrounding space) starts a session. */
  function Launched(g: Game, game: string, points: int, draws: seq<Cell>): (r: (Game, bool))
    requires ValidGame(g) && |draws| > 0 && AllInGrid(draws)
    ensures r.1 <==> Lower(Trim(game)) == GameName
    ensures r.1 ==> r.0 == Initialized(g, points, draws)
    ensures !r.1 ==> r.0 == g
  {
    if Lower(Trim(game)) != GameName then (g, false) else (Initialized(g, points, draws), true)
  }

  /** `startGame`: from `ready` only, into a five-second countdown. */
  function Started(g: Game): (h: Game)
    requires ValidGame(g)
    ensures ValidGame(h)
    ensures !(g.active && g.status == Ready) ==> h == g
    ensures g.active && g.status == Ready ==>
      h == g.(status := Countdown, countdownActive := true, countdownRemaining := CountdownSeconds)
  {
    if !g.active || g.status != Ready then g
    else g.(status := Countdown, countdownActive := true, countdownRemaining := CountdownSeconds)
  }

  /** `scheduleNextTick`: a tick is scheduled only while running, after the delay the score sets. */
  function Scheduled(g: Game): (h: Game)
    requires ValidGame(g)
    ensures ValidGame(h)
    ensures g.active && g.status == Running ==>
      h == g.(tickPending := true, tickDelay := TickMs(Multiplier(g.score)))
    ensures !(g.active && g.status == Running) ==> h == g
  {
    if g.active && g.status == Running then g.(tickPending := true, tickDelay := TickMs(Multiplier(g.score)))
    else g
  }

  /** One second of the countdown interval; at zero the interval stops and the game runs. */
  function CountdownStepped(g: Game): (h: Game)
    requires ValidGame(g) && g.countdownActive
    ensures ValidGame(h)
    ensures h.countdownRemaining == g.countdownRemaining - 1
    ensures g.countdownRemaining > 1 ==> h == g.(countdownRemaining := g.countdownRemaining - 1)
    ensures g.countdownRemaining <= 1 ==>
      && h.status == Running && !h.countdownActive && h.tickPending
      && h.tickDelay == TickMs(Multiplier(g.score))
    ensures g.countdownRemaining <= 1 ==>
      h == g.(countdownRemaining := g.countdownRemaining - 1, countdownActive := false, status := Running,
              tickPending := true, tickDelay := TickMs(Multiplier(g.score)))
  {
    var remaining := g.countdownRemaining - 1;
    if remaining > 0 then g.(countdownRemaining := remaining)
    else Scheduled(g.(countdownRemaining := remaining, countdownActive := false, status := Running))
  }

  /**
   * `endGame`: every path leaves the session `over` with no tick pending; a
   * cancelled end books nothing; otherwise the first end of the session books
   * the final points, when positive, and sets `awarded`. The countdown
   * interval is not stopped.
   */
  function Ended(g: Game, canceled: bool): (r: (Game, Option<Award>))
    requires ValidGame(g)
    ensures ValidGame(r.0)
    ensures !g.active ==> r == (g, None)
    ensures g.active ==> r.0.status == Over && !r.0.tickPending
    ensures g.active ==> r.0.awarded == (g.awarded || !canceled)
    ensures g.active ==> r.0.countdownActive == g.countdownActive
    ensures r.1.Some? <==> g.active && !canceled && !g.awarded && FinalPoints(g.basePoints, g.score) > 0
    ensures r.1.Some? ==> r.1.value == Award(FinalPoints(g.basePoints, g.score), AwardReason(g.score))
    ensures r.0.snake == g.snake && r.0.score == g.score
  {
    if !g.active then (g, None)
    else
      var over := g.(tickPending := false, status := Over);
      if canceled then (over, None)
      else if g.awarded then (over, None)
      else
        var points := FinalPoints(g.basePoints, g.score);
        (over.(awarded := true), if points > 0 then Some(Award(points, AwardReason(g.score))) else None)
  }

  /** The end of a running game, spelled out for the method that performs it. */
  lemma EndedRunning(g: Game, canceled: bool)
    requires ValidGame(g) && g.active
    ensures Ended(g, canceled).0 == g.(tickPending := false, status := Over, awarded := g.awarded || !canceled)
    ensures Ended(g, canceled).1
      == if canceled || g.awarded || FinalPoints(g.basePoints, g.score) <= 0 then None
         else Some(Award(FinalPoints(g.basePoints, g.score), AwardReason(g.score)))
  {
  }

  /** The cell the head moves into on the next tick. */
  function NextHead(g: Game): Cell
    requires |g.snake| > 0
  {
    Step(g.snake[0], g.queuedDir.GetOr(g.dir))
  }

  /** The move hits the border or the body (the tail included). */
  predicate Collides(snake: seq<Cell>, next: Cell) {
    !InGrid(next) || next in snake
  }

  /** The food draws of a tick suffice: all on the grid, and a free one if the snake eats. */
  predicate TickDrawsOk(g: Game, draws: seq<Cell>) {
    && g.active && |g.snake| > 0 && AllInGrid(draws)
    && (var next := NextHead(g);
        !Collides(g.snake, next) && next == g.food ==> FirstFreeDraw(draws, [next] + g.snake).Some?)
  }

  /** The snake after moving its head into `next`, without growing. */
  lemma MovedKeepsShape(snake: seq<Cell>, next: Cell)
    requires |snake| > 0 && AllInGrid(snake) && NoRepeats(snake)
    requires !Collides(snake, next)
    ensures var moved := ([next] + snake)[..|snake|];
      |moved| == |snake| && AllInGrid(moved) && NoRepeats(moved)
    ensures AllInGrid([next] + snake) && NoRepeats([next] + snake)
  {
    var grown := [next] + snake;
    forall i, j | 0 <= i < j < |grown| ensures grown[i] != grown[j] {
      if i == 0 {
        assert grown[j] == snake[j - 1];
      } else {
        assert grown[i] == snake[i - 1] && grown[j] == snake[j - 1];
      }
    }
  }

  /** The first step of a tick: the queued direction, if any, becomes the direction and the queue empties. */
  function Turned(g: Game): (h: Game)
    requires ValidGame(g)
    ensures ValidGame(h)
    ensures h.dir == g.queuedDir.GetOr(g.dir) && h.lastDir == h.dir && h.queuedDir == None && !h.tickPending
    ensures && h.active == g.active && h.snake == g.snake && h.food == g.food && h.score == g.score
            && h.status == g.status && h.awarded == g.awarded && h.basePoints == g.basePoints
            && h.countdownActive == g.countdownActive
  {
    var d := g.queuedDir.GetOr(g.dir);
    g.(tickPending := false, queuedDir := None, dir := d, lastDir := d)
  }

  /**
   * The head moves into the free cell `next`: onto the food the snake grows
   * by one, the score rises by one and new food lands on a free grid cell;
   * elsewhere the tail is dropped.
   */
  function Moved(g: Game, next: Cell, draws: seq<Cell>): (h: Game)
    requires ValidGame(g) && g.active && |g.snake| > 0 && !Collides(g.snake, next) && AllInGrid(draws)
    requires next == g.food ==> FirstFreeDraw(draws, [next] + g.snake).Some?
    ensures ValidGame(h) && h.status == g.status && h.tickPending == g.tickPending
    ensures next == g.food ==>
      && h.snake == [next] + g.snake && h.score == g.score + 1
      && InGrid(h.food) && h.food !in h.snake
    ensures next != g.food ==>
      && h.snake == [next] + g.snake[..|g.snake| - 1] && h.score == g.score && h.food == g.food
    ensures next == g.food ==>
      h == g.(snake := [next] + g.snake, score := g.score + 1, food := FirstFreeDraw(draws, [next] + g.snake).value)
    ensures next != g.food ==> h == g.(snake := [next] + g.snake[..|g.snake| - 1])
  {
    MovedKeepsShape(g.snake, next);
    var grown := [next] + g.snake;
    if next == g.food then
      var food := FirstFreeDraw(draws, grown).value;
      assert InGrid(food) by {
        var k :| 0 <= k < |draws| && draws[k] == food;
      }
      g.(snake := grown, score := g.score + 1, food := food)
    else
      assert grown[..|g.snake|] == [next] + g.snake[..|g.snake| - 1];
      g.(snake := grown[..|g.snake|])
  }

  /**
   * One movement tick (the timer has fired): after the turn, a move off the
   * grid or into the body (the tail included) ends the game and leaves the
   * snake as it was; otherwise the snake moves and, while the game runs,
   * the next tick is scheduled.
   */
  function Ticked(g: Game, draws: seq<Cell>): (r: (Game, Option<Award>))
    requires ValidGame(g) && g.tickPending && TickDrawsOk(g, draws)
    ensures ValidGame(r.0)
    ensures var d := g.queuedDir.GetOr(g.dir);
      r.0.dir == d && r.0.lastDir == d && r.0.queuedDir == None
    ensures Collides(g.snake, NextHead(g)) ==>
      r.0.snake == g.snake && r.0.status == Over && !r.0.tickPending
    ensures Collides(g.snake, NextHead(g)) ==> r == Ended(Turned(g), false)
    ensures Collides(g.snake, NextHead(g)) ==>
      && r.0.awarded
      && (r.1.Some? <==> !g.awarded && FinalPoints(g.basePoints, g.score) > 0)
      && (r.1.Some? ==> r.1.value == Award(FinalPoints(g.basePoints, g.score), AwardReason(g.score)))
    ensures !Collides(g.snake, NextHead(g)) ==>
      && r.1 == None && r.0.status == g.status
      && (r.0.tickPending <==> g.status == Running)
    ensures !Collides(g.snake, NextHead(g)) ==>
      && r.0.active == g.active && r.0.awarded == g.awarded && r.0.basePoints == g.basePoints
      && r.0.countdownActive == g.countdownActive && r.0.countdownRemaining == g.countdownRemaining
      && (g.status == Running ==> r.0.tickDelay == TickMs(Multiplier(r.0.score)))
      && (g.status != Running ==> r.0.tickDelay == g.tickDelay)
    ensures !Collides(g.snake, NextHead(g)) && NextHead(g) == g.food ==>
      && r.0.snake == [NextHead(g)] + g.snake
      && r.0.score == g.score + 1
      && InGrid(r.0.food) && r.0.food !in r.0.snake
    ensures !Collides(g.snake, NextHead(g)) && NextHead(g) != g.food ==>
      && r.0.snake == [NextHead(g)] + g.snake[..|g.snake| - 1]
      && r.0.score == g.score && r.0.food == g.food
  {
    var next := NextHead(g);
    var turned := Turned(g);
    if Collides(g.snake, next) then Ended(turned, false)
    else (Scheduled(Moved(turned, next, draws)), None)
  }

  /** `queueDirection`: only while running, never the reverse of the last direction; the latest wins. */
  function Queued(g: Game, d: Dir): (h: Game)
    requires ValidGame(g)
    ensures ValidGame(h)
    ensures h == (if g.active && g.status == Running && CanChangeDir(d, g.lastDir)
                  then g.(queuedDir := Some(d)) else g)
  {
    if !g.active || g.status != Running then g
    else if !CanChangeDir(d, g.lastDir) then g
    else g.(queuedDir := Some(d))
  }

  /** `handleSwipe` over the distance moved. */
  function Swiped(g: Game, dx: int, dy: int): (h: Game)
    requires ValidGame(g)
    ensures ValidGame(h)
    ensures SwipeDir(dx, dy).None? ==> h == g
    ensures SwipeDir(dx, dy).Some? ==> h == Queued(g, SwipeDir(dx, dy).value)
  {
    match SwipeDir(dx, dy)
    case None => g
    case Some(d) => Queued(g, d)
  }

  /** `closeOverlay`: a running game is cancelled (nothing booked), both timers stop, the session is gone. */
  function Closed(g: Game): (h: Game)
    requires ValidGame(g)
    ensures ValidGame(h)
    ensures !h.active && !h.tickPending && !h.countdownActive
  {
    var ended := if g.active && g.status == Running then Ended(g, true).0 else g;
    ended.(tickPending := false, countdownActive := false, active := false)
  }

  /** The ledger after a game's credit, if any. */
  function Credited(s: Points.LedgerState, award: Option<Award>, now: int, draw: Points.TxDraw): Points.LedgerState {
    match award
    case None => s
    case Some(a) => Points.Earned(s, a.points, a.reason, now, draw)
  }

  /** A game credit adds exactly its points to the balance and records them, never doubled. */
  lemma CreditAddsExactly(s: Points.LedgerState, g: Game, canceled: bool, now: int, draw: Points.TxDraw)
    requires ValidGame(g)
    requires Ended(g, canceled).1.Some?
    ensures var a := Ended(g, canceled).1.value;
      && Credited(s, Ended(g, canceled).1, now, draw).balance == s.balance + a.points
      && Credited(s, Ended(g, canceled).1, now, draw).transactions[0].amount == a.points
  {
    AwardNeverBoosted(g.score, now, s.doubleUntil, FinalPoints(g.basePoints, g.score));
  }

  // ----- what can happen to a session -----

  /** The inputs and timer callbacks a live session can see. */
  datatype Event =
    | StartPressed
    | CountdownTick
    | MoveTick(draws: seq<Cell>)
    | DirectionInput(d: Dir)
    | SwipeInput(dx: int, dy: int)
    | GiveUp
    | CloseOverlay

  /** One event; a timer callback with no timer pending does not happen. */
  function Apply(g: Game, e: Event): (r: (Game, Option<Award>))
    requires ValidGame(g)
    ensures ValidGame(r.0)
  {
    match e
    case StartPressed => (Started(g), None)
    case CountdownTick => if g.countdownActive then (CountdownStepped(g), None) else (g, None)
    case MoveTick(draws) => if g.tickPending && TickDrawsOk(g, draws) then Ticked(g, draws) else (g, None)
    case DirectionInput(d) => (Queued(g, d), None)
    case SwipeInput(dx, dy) => (Swiped(g, dx, dy), None)
    case GiveUp => Ended(g, true)
    case CloseOverlay => (Closed(g), None)
  }

  /**
   * When the snake eats the food on the last free cell, `spawnFood` finds
   * no free cell among any draws and its loop never ends. No draw list is
   * then good enough for the tick, so the model's tick does not happen at
   * all, where the page hangs.
   */
  lemma FullGridStallsTick(g: Game, draws: seq<Cell>)
    requires ValidGame(g) && g.active && g.tickPending
    requires !Collides(g.snake, NextHead(g)) && NextHead(g) == g.food
    requires forall c :: InGrid(c) ==> c in [NextHead(g)] + g.snake
    ensures AllInGrid(draws) ==> FirstFreeDraw(draws, [NextHead(g)] + g.snake).None?
    ensures !TickDrawsOk(g, draws)
    ensures Apply(g, MoveTick(draws)) == (g, None)
  {
    if AllInGrid(draws) {
      forall k | 0 <= k < |draws| ensures draws[k] in [NextHead(g)] + g.snake {
        assert InGrid(draws[k]);
      }
    }
  }

  /** A sequence of events and how many credits it booked. */
  function Run(g: Game, events: seq<Event>): (r: (Game, nat))
    requires ValidGame(g)
    ensures ValidGame(r.0)
    decreases |events|
  {
    if events == [] then (g, 0)
    else
      var (h, award) := Apply(g, events[0]);
      var (last, credits) := Run(h, events[1..]);
      (last, credits + if award.Some? then 1 else 0)
  }

  /** A credit comes only from a session not yet awarded, and marks it awarded; nothing clears the mark. */
  lemma ApplyAwardsOnce(g: Game, e: Event)
    requires ValidGame(g)
    ensures Apply(g, e).1.Some? ==> !g.awarded && Apply(g, e).0.awarded
    ensures g.awarded ==> Apply(g, e).0.awarded
  {
  }

  /**
   * Whatever happens between two launches, a session books at most one
   * credit, and none once it has been awarded.
   */
  lemma {:induction false} AwardAtMostOnce(g: Game, events: seq<Event>)
    requires ValidGame(g)
    ensures Run(g, events).1 <= (if g.awarded then 0 else 1)
    ensures g.awarded ==> Run(g, events).0.awarded
    ensures Run(g, events).1 == 1 ==> Run(g, events).0.awarded
    decreases |events|
  {
    if events != [] {
      ApplyAwardsOnce(g, events[0]);
      var (h, award) := Apply(g, events[0]);
      AwardAtMostOnce(h, events[1..]);
    }
  }

  /** After `startGame`, four seconds leave the countdown running and the fifth starts the game. */
  lemma CountdownTakesFiveSeconds(g: Game)
    requires ValidGame(g) && g.active && g.status == Ready
    ensures var c := Started(g);
      && c.status == Countdown
      && CountdownStepped(CountdownStepped(CountdownStepped(CountdownStepped(c)))).status == Countdown
      && CountdownStepped(CountdownStepped(CountdownStepped(CountdownStepped(CountdownStepped(c))))).status
           == Running
  {
  }

  /**
   * Giving up during the countdown does not stop the countdown interval: five
   * seconds later the session is running again, not awarded, with a tick
   * scheduled, so a later collision still books points.
   */
  lemma GiveUpDuringCountdownResumes(g: Game)
    requires ValidGame(g) && g.active && g.status == Ready && !g.awarded
    ensures var given := Ended(Started(g), true).0;
      && given.status == Over && given.countdownActive
      && var h := CountdownStepped(CountdownStepped(CountdownStepped(CountdownStepped(CountdownStepped(given)))));
         h.status == Running && h.tickPending && !h.awarded
  {
  }

  /** Reversing into the snake is ignored: moving right, a left input leaves the next move going right. */
  lemma ReverseRejectedScenario(g: Game)
    requires ValidGame(g) && g.active && g.status == Running && g.lastDir == Right && g.queuedDir == None
    ensures Queued(g, Left) == g
    ensures |g.snake| > 0 && NextHead(Queued(g, Left)) == Step(g.snake[0], g.dir)
  {
  }

  /** Two accepted inputs before a tick: the later one is the one the tick uses. */
  lemma LatestDirectionWins(g: Game, d1: Dir, d2: Dir)
    requires ValidGame(g) && g.active && g.status == Running
    requires CanChangeDir(d1, g.lastDir) && CanChangeDir(d2, g.lastDir)
    ensures Queued(Queued(g, d1), d2).queuedDir == Some(d2)
  {
  }

  /** `spawnFood`: draw cells until one is not occupied. */
  method SpawnFood(occupied: seq<Cell>, draws: seq<Cell>) returns (food: Cell)
    requires FirstFreeDraw(draws, occupied).Some?
    ensures Some(food) == FirstFreeDraw(draws, occupied)
  {
    var i := 0;
    food := draws[0];
    while food in occupied
      invariant 0 <= i < |draws| && food == draws[i]
      invariant FirstFreeDraw(draws[i..], occupied) == FirstFreeDraw(draws, occupied)
      decreases |draws| - i
    {
      assert draws[i..][1..] == draws[i + 1..];
      i := i + 1;
      food := draws[i];
    }
    assert draws[i..][0] == food;
  }

  /** The game module's state, updated in place by its functions and timer callbacks. */
  class SnakeGame {
    var active: bool
    var basePoints: int
    var score: nat
    var snake: seq<Cell>
    var dir: Dir
    var food: Cell
    var status: Status
    var awarded: bool
    var lastDir: Dir
    var queuedDir: Option<Dir>
    var tickPending: bool
    var tickDelay: int
    var countdownActive: bool
    var countdownRemaining: int

    function State(): Game
      reads this
    {
      Game(active, basePoints, score, snake, dir, food, status, awarded, lastDir, queuedDir,
           tickPending, tickDelay, countdownActive, countdownRemaining)
    }

    ghost predicate Valid()
      reads this
    {
      ValidGame(State())
    }

    /** The module as the page loads it. */
    constructor ()
      ensures Valid() && State() == Initial()
    {
      active, basePoints, score, snake, dir, food := false, 0, 0, [], Right, Cell(0, 0);
      status, awarded, lastDir, queuedDir := Ready, false, Right, None;
      tickPending, tickDelay, countdownActive, countdownRemaining := false, 0, false, 0;
    }

    /** `initState`. */
    method InitState(points: int, draws: seq<Cell>)
      requires |draws| > 0 && AllInGrid(draws)
      modifies this
      ensures State() == Initialized(old(State()), points, draws)
      ensures Valid()
    {
      FirstDrawOnEmptyGrid(draws);
      var first := SpawnFood([], draws);
      basePoints, score, snake, dir, food, status, awarded := Points.Max0(points), 0, StartSnake, Right, first, Ready, false;
      active, lastDir, queuedDir := true, Right, None;
      StartSnakeValid();
    }

    /** `launchGame`. */
    method Launch(game: string, points: int, draws: seq<Cell>) returns (launched: bool)
      requires Valid() && |draws| > 0 && AllInGrid(draws)
      modifies this
      ensures Valid() && (State(), launched) == Launched(old(State()), game, points, draws)
    {
      var normalized := Lower(Trim(game));
      if normalized != GameName {
        return false;
      }
      InitState(points, draws);
      launched := true;
    }

    /** `startGame`. */
    method Start()
      requires Valid()
      modifies this
      ensures Valid() && State() == Started(old(State()))
    {
      if !active || status != Ready {
        return;
      }
      countdownRemaining := CountdownSeconds;
      status := Countdown;
      countdownActive := true;
    }

    /** `scheduleNextTick`. */
    method ScheduleNextTick()
      requires Valid()
      modifies this
      ensures Valid() && State() == Scheduled(old(State()))
    {
      if !active || status != Running {
        return;
      }
      tickDelay := TickMs(Multiplier(score));
      tickPending := true;
    }

    /** The countdown interval's callback, once a second while the interval runs. */
    method CountdownStep()
      requires Valid() && countdownActive
      modifies this
      ensures Valid() && State() == CountdownStepped(old(State()))
    {
      countdownRemaining := countdownRemaining - 1;
      if countdownRemaining <= 0 {
        countdownActive := false;
        status := Running;
        tickPending := false;
        ScheduleNextTick();
      }
    }

    /** `endGame`: books the credit on `ledger` at most once per session. */
    method EndGame(canceled: bool, ledger: Points.Ledger, now: int, draw: Points.TxDraw)
      requires Valid() && ledger.Valid()
      modifies this, ledger
      ensures Valid() && ledger.Valid()
      ensures State() == Ended(old(State()), canceled).0
      ensures ledger.State() == Credited(old(ledger.State()), Ended(old(State()), canceled).1, now, draw)
    {
      if !active {
        return;
      }
      EndedRunning(State(), canceled);
      tickPending := false;
      status := Over;
      if canceled {
        return;
      }
      if !awarded {
        var finalPoints := FinalPoints(basePoints, score);
        if finalPoints > 0 {
          ledger.AddPoints(finalPoints, AwardReason(score), now, draw);
        }
        awarded := true;
      }
    }

    /** The movement timer's callback. */
    method Tick(ledger: Points.Ledger, now: int, draw: Points.TxDraw, draws: seq<Cell>)
      requires Valid() && ledger.Valid() && tickPending && TickDrawsOk(State(), draws)
      modifies this, ledger
      ensures Valid() && ledger.Valid()
      ensures State() == Ticked(old(State()), draws).0
      ensures ledger.State() == Credited(old(ledger.State()), Ticked(old(State()), draws).1, now, draw)
    {
      tickPending := false;
      var nextDir := if queuedDir.Some? then queuedDir.value else dir;
      var head := snake[0];
      var next := Step(head, nextDir);
      queuedDir := None;
      dir := nextDir;
      lastDir := nextDir;
      assert State() == Turned(old(State()));
      if !InGrid(next) {
        EndGame(false, ledger, now, draw);
        return;
      }
      if next in snake {
        EndGame(false, ledger, now, draw);
        return;
      }
      Advance(next, draws);
      ScheduleNextTick();
    }

    /** The part of a tick that moves the snake into the free cell `next`. */
    method Advance(next: Cell, draws: seq<Cell>)
      requires Valid() && active && |snake| > 0 && !Collides(snake, next) && AllInGrid(draws)
      requires next == food ==> FirstFreeDraw(draws, [next] + snake).Some?
      modifies this
      ensures State() == Moved(old(State()), next, draws)
      ensures Valid()
    {
      MovedKeepsShape(snake, next);
      snake := [next] + snake;
      if next == food {
        score := score + 1;
        food := SpawnFood(snake, draws);
      } else {
        snake := snake[..|snake| - 1];
      }
    }

    /** `queueDirection`. */
    method QueueDirection(next: Dir)
      requires Valid()
      modifies this
      ensures Valid() && State() == Queued(old(State()), next)
    {
      if !active || status != Running {
        return;
      }
      if !CanChangeDir(next, lastDir) {
        return;
      }
      queuedDir := Some(next);
    }

    /** `handleSwipe`, given the distance the touch moved. */
    method HandleSwipe(dx: int, dy: int)
      requires Valid()
      modifies this
      ensures Valid() && State() == Swiped(old(State()), dx, dy)
    {
      var absX := if dx < 0 then -dx else dx;
      var absY := if dy < 0 then -dy else dy;
      if absX < SwipeThreshold && absY < SwipeThreshold {
        return;
      }
      if absX > absY {
        QueueDirection(Dir(if dx > 0 then 1 else -1, 0));
      } else {
        QueueDirection(Dir(0, if dy > 0 then 1 else -1));
      }
    }

    /** `closeOverlay`: a cancelled end books nothing, so the ledger is left as it was. */
    method Close(ledger: Points.Ledger)
      requires Valid() && ledger.Valid()
      modifies this, ledger
      ensures Valid() && ledger.Valid()
      ensures State() == Closed(old(State()))
      ensures ledger.State() == old(ledger.State())
    {
      if active && status == Running {
        EndGame(true, ledger, 0, 0);
      }
      tickPending := false;
      countdownActive := false;
      active := false;
    }
  }
}
