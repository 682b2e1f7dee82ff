/**
 The bouncing-ball demo of led.c: up to two balls on an 8x8 grid that is scanned and
 changed in place, so a ball that moves ahead of the scan is met again in the same frame.
 */
module Balls {
  import opened Bytes

  const SIZE := 8
  const MAX_BALLS := 2                   // also the mark of an empty cell
  const DELAY_LIMIT := 0x18
  const REPEAT_LIMIT := 0xFF
  const OVERRIDE := 0xF0
  const NO_BALL := 0xFF
  const NUM_COLORS := 20
  const FALL_FACTORS: seq<byte> := [0x0C, 0x0A, 0x08, 0x07, 0x06, 0x05, 0x04, 0x03]

  type Id = i: int | 0 <= i < MAX_BALLS

  datatype Ball = Ball(leftward: bool, hFactor: byte, hCount: byte, falling: bool, vCount: byte, top: byte, color: byte)

  /** Where a ball is. */
  datatype Place = Off | On(row: nat, col: nat)

  /** The ball at (row, col), or the mark of an empty cell. */
  function Occupant(places: seq<Place>, row: nat, col: nat): byte
    requires |places| == MAX_BALLS
  {
    if places[0] == On(row, col) then 0 else if places[1] == On(row, col) then 1 else MAX_BALLS
  }

  function Other(id: Id): Id {
    1 - id
  }

  // ----- Motion of one ball

  predicate Near(a: int, b: int) {
    a - 1 <= b <= a + 1
  }

  /** The column after a turn: it stays on the grid, moves only the way the ball goes, and turns at a wall. */
  function MoveHorizontally(b: Ball, col: nat): (r: (nat, Ball))
    requires col < SIZE
    ensures r.0 < SIZE && Near(col, r.0) && r.1.top == b.top && r.1.color == b.color && r.1.falling == b.falling
    ensures r.0 != col ==> (b.leftward <==> r.0 < col) && r.1.leftward == b.leftward
    ensures r.1.leftward != b.leftward ==> r.0 == col && col == if b.leftward then 0 else SIZE - 1
  {
    var count := Low8(b.hCount + 1);
    if count < b.hFactor then (col, b.(hCount := count))
    else
      var moved := Low8(if b.leftward then col - 1 else col + 1);
      if moved < SIZE then (moved, b.(hCount := 0))
      else (col, b.(leftward := !b.leftward, hCount := b.hFactor))
  }

  /** The row after a turn: between the floor and the ball's own ceiling, where it turns. */
  function MoveVertically(b: Ball, row: nat): (r: (nat, Ball))
    requires row <= b.top < SIZE
    ensures r.0 <= b.top && Near(row, r.0) && r.1.top == b.top && r.1.color == b.color && r.1.leftward == b.leftward
    ensures r.0 != row ==> (b.falling <==> r.0 < row) && r.1.falling == b.falling
    ensures r.1.falling != b.falling ==> r.0 == row && row == if b.falling then 0 else b.top
  {
    var count := Low8(b.vCount + 1);
    var factor := FALL_FACTORS[(b.top - row) % 8];
    if count < factor then (row, b.(vCount := count))
    else
      var moved := Low8(if b.falling then row - 1 else row + 1);
      if moved <= b.top then (moved, b.(vCount := 0))
      else (row, b.(falling := !b.falling, vCount := factor))
  }

  /** A ball's turn, both ways: where it wants to go, and its counters and directions then. */
  function Moved(b: Ball, row: nat, col: nat): (r: (Place, Ball))
    requires row <= b.top < SIZE && col < SIZE
    ensures r.0.On? && r.0.row <= b.top && r.0.col < SIZE && Near(row, r.0.row) && Near(col, r.0.col)
    ensures r.1.top == b.top && r.1.color == b.color
    ensures r.0.row != row ==> (r.1.falling <==> r.0.row < row)
    ensures r.0.col != col ==> (r.1.leftward <==> r.0.col < col)
  {
    var (toCol, sideways) := MoveHorizontally(b, col);
    var (toRow, moved) := MoveVertically(sideways, row);
    (On(toRow, toCol), moved)
  }

  predicate IsIn(b: Ball, at: Place) {
    at.On? && at.row <= b.top && at.col < SIZE
  }

  /** A ball and its place, and how a turn changes them when no other ball is in the way. */
  datatype State = State(place: Place, ball: Ball)
  type Motion = State -> State

  predicate IsState(s: State) {
    s.ball.top < SIZE && IsIn(s.ball, s.place)
  }

  function Turned(s: State): State {
    if IsState(s) then
      var (place, ball) := Moved(s.ball, s.place.row, s.place.col);
      State(place, ball)
    else s
  }

  function Travelled(motion: Motion, s: State, n: nat): State {
    if n == 0 then s else motion(Travelled(motion, s, n - 1))
  }

  lemma {:induction false} TravelledAdd(motion: Motion, s: State, n: nat, more: nat)
    ensures Travelled(motion, s, n + more) == Travelled(motion, Travelled(motion, s, n), more)
    decreases more
  {
    if more == 0 {
    } else {
      TravelledAdd(motion, s, n, more - 1);
    }
  }

  /** A palette entry from five random bits. */
  function RandomColor(random: nat): (color: byte)
    ensures 0 < color < NUM_COLORS - 1 && (random % 32 == color - 1 || random % 32 == color + 17)
  {
    var bits := random % 32;
    if bits < 18 then bits + 1 else bits - 17
  }

  // ----- Collisions, on the states of the two balls

  predicate Pair(bs: seq<Ball>) {
    |bs| == MAX_BALLS && forall id: Id :: bs[id].color < NUM_COLORS && bs[id].top < SIZE
  }

  /** The counters stay low enough not to wrap round, and a ball that came in has its slowdown. */
  predicate Counts(b: Ball) {
    b.hCount <= OVERRIDE && b.vCount <= OVERRIDE
  }

  predicate HasPace(b: Ball) {
    8 <= b.hFactor < 40
  }

  /** The two balls keep their ceilings. */
  predicate SameTops(bs: seq<Ball>, cs: seq<Ball>)
    requires Pair(bs) && Pair(cs)
  {
    forall id: Id :: bs[id].top == cs[id].top
  }

  /** Ball `id` hit the other one above or below it. */
  function HitVertically(bs: seq<Ball>, id: Id, falling: bool, color: byte): (cs: seq<Ball>)
    requires Pair(bs) && color < NUM_COLORS
    ensures Pair(cs) && SameTops(bs, cs)
  {
    bs[id := bs[id].(falling := falling, vCount := OVERRIDE)]
      [Other(id) := bs[Other(id)].(falling := !falling, color := color)]
  }

  /** Ball `id` hit the other one beside it. */
  function HitHorizontally(bs: seq<Ball>, id: Id, leftward: bool, color: byte): (cs: seq<Ball>)
    requires Pair(bs) && color < NUM_COLORS
    ensures Pair(cs) && SameTops(bs, cs)
  {
    bs[id := bs[id].(leftward := leftward, hCount := OVERRIDE)]
      [Other(id) := bs[Other(id)].(leftward := !leftward, color := color)]
  }

  // ----- Runs of a ball that is by itself

  /** Where the balls are, and how they move. */
  datatype Scene = Scene(places: seq<Place>, balls: seq<Ball>)

  predicate Alone(s: Scene, id: Id) {
    |s.places| == |s.balls| == MAX_BALLS && s.places[id].On? && s.places[Other(id)].Off?
  }

  /** The other ball is where ball `id` wants to go. */
  predicate Bumps(s: Scene, id: Id) {
    && |s.places| == |s.balls| == MAX_BALLS
    && IsState(State(s.places[id], s.balls[id]))
    && Turned(State(s.places[id], s.balls[id])).place == s.places[Other(id)]
  }

  /** Ball `id` is on the grid if it was, and has had `n` turns if it was there by itself. */
  predicate FollowsBy(motion: Motion, s: Scene, n: nat, s': Scene, id: Id) {
    && |s.places| == |s.balls| == |s'.places| == |s'.balls| == MAX_BALLS
    && (s.places[id].On? <==> s'.places[id].On?)
    && (Alone(s, id) ==>
          State(s'.places[id], s'.balls[id]) == Travelled(motion, State(s.places[id], s.balls[id]), n))
  }

  predicate Follows(motion: Motion, s: Scene, n: nat, s': Scene) {
    FollowsBy(motion, s, n, s', 0) && FollowsBy(motion, s, n, s', 1)
  }

  lemma FollowsOn(motion: Motion, s: Scene, n: nat, s': Scene, more: nat, s'': Scene, total: nat)
    requires Follows(motion, s, n, s') && Follows(motion, s', more, s'') && total == n + more
    ensures Follows(motion, s, total, s'')
  {
    TravelledAdd(motion, State(s.places[0], s.balls[0]), n, more);
    TravelledAdd(motion, State(s.places[1], s.balls[1]), n, more);
  }

  /** The number of balls in a set. */
  function Seen(ids: set<Id>): nat {
    (if 0 in ids then 1 else 0) + (if 1 in ids then 1 else 0)
  }

  // ----- The demo

  class Demo {
    const stream: nat -> word            // the values that random16 returns
    const grid: array2<byte>
    var drawn: nat
    var balls: seq<Ball>
    var index: Id                        // the id of the next new ball
    var delay: byte
    var direction: bool
    var lastThis: byte
    var lastThat: byte
    var repeats: byte
    ghost var places: seq<Place>

    /** The grid holds each ball that is on it in one cell, its place, and nothing else. */
    ghost predicate Tracks()
      reads this, grid
    {
      && grid.Length0 == SIZE && grid.Length1 == SIZE && |places| == MAX_BALLS
      && (forall id: Id :: places[id].On? ==> places[id].row < SIZE && places[id].col < SIZE)
      && (places[0].On? ==> places[0] != places[1])
      && (forall r, c :: 0 <= r < SIZE && 0 <= c < SIZE ==> grid[r, c] == Occupant(places, r, c))
    }

    /** Every ball is below its ceiling, and the next id is on the grid only if both are. */
    ghost predicate Valid()
      reads this, grid
    {
      && Tracks()
      && Pair(balls) && delay <= DELAY_LIMIT
      && (forall id: Id :: Counts(balls[id]))
      && (forall id: Id :: places[id].On? ==> places[id].row <= balls[id].top && HasPace(balls[id]))
      && (places[index].On? ==> places[Other(index)].On?)
      && lastThis == lastThat == NO_BALL
    }

    constructor (stream: nat -> word)
      ensures Valid() && fresh(grid) && places == [Off, Off]
    {
      this.stream, drawn := stream, 0;
      grid := new byte[SIZE, SIZE]((_, _) => MAX_BALLS);
      var still := Ball(false, 0, 0, false, 0, 0, 0);
      balls := [still, still];
      index, delay, direction := 0, DELAY_LIMIT, true;
      lastThis, lastThat, repeats := NO_BALL, NO_BALL, 0;
      places := [Off, Off];
    }

    /** `ball_demo_setup`, which runs before every demo: it clears the grid and nothing else. */
    method Setup()
      requires Valid()
      modifies this`places, grid
      ensures Valid() && places == [Off, Off]
    {
      for row := 0 to SIZE
        invariant forall r, c :: 0 <= r < row && 0 <= c < SIZE ==> grid[r, c] == MAX_BALLS
      {
        for col := 0 to SIZE
          invariant forall r, c :: 0 <= r < row && 0 <= c < SIZE ==> grid[r, c] == MAX_BALLS
          invariant forall c :: 0 <= c < col ==> grid[row, c] == MAX_BALLS
        {
          grid[row, col] := MAX_BALLS;
        }
      }
      places := [Off, Off];
    }

    /** Counts collisions of the pair collided last; a new pair starts over. */
    method RepeatLimitReached(thisBall: Id, thatBall: Id) returns (reached: bool)
      modifies this`repeats
      ensures var repeated := (thisBall == lastThis && thatBall == lastThat) ||
                              (thisBall == lastThat && thatBall == lastThis);
              && reached == (repeated && Low8(old(repeats) + 1) >= REPEAT_LIMIT)
              && repeats == (if repeated && !reached then Low8(old(repeats) + 1) else 0)
    {
      if thisBall == lastThis && thatBall == lastThat {
        repeats := Low8(repeats + 1);
      } else if thisBall == lastThat && thatBall == lastThis {
        repeats := Low8(repeats + 1);
      } else {
        repeats := 0;
        return false;
      }
      reached := repeats >= REPEAT_LIMIT;
      if reached {
        repeats := 0;
      }
    }

    method Random() returns (random: word)
      modifies this`drawn
      ensures random == stream(old(drawn)) && drawn == old(drawn) + 1
    {
      random := stream(drawn);
      drawn := drawn + 1;
    }

    /**
     Ball `thisBall` at (row, col) finds the other one at (newRow, newCol) and does not move. The
     direction it was going in stays; the other ball is turned to come towards it. The counter for
     repeated collisions never reaches its limit, because the pair it compares with is never set.
     */
    method Collide(thisBall: Id, row: nat, col: nat, newRow: nat, newCol: nat, disabled: bool)
      requires Valid()
      requires newRow != row ==> (balls[thisBall].falling <==> newRow < row)
      requires newCol != col ==> (balls[thisBall].leftward <==> newCol < col)
      modifies this`balls, this`repeats, this`drawn
      ensures Valid()
      ensures var v, h := newRow != row && !disabled, newCol != col;
              var mine, theirs := old(balls[thisBall]), old(balls[Other(thisBall)]);
              && balls[thisBall] == mine.(vCount := if v then OVERRIDE else mine.vCount,
                                           hCount := if h then OVERRIDE else mine.hCount)
              && balls[Other(thisBall)] ==
                 theirs.(falling := if v then !mine.falling else theirs.falling,
                        leftward := if h then !mine.leftward else theirs.leftward,
                        color := if !v && !h then theirs.color
                                 else RandomColor(stream(old(drawn) + if v && h then 1 else 0) / 32))
    {
      if !disabled {
        var reached := RepeatLimitReached(thisBall, Other(thisBall));
        if reached {
          assert false; // the branch in which both balls explode
        } else if newRow != row {
          var random := Random();
          balls := HitVertically(balls, thisBall, newRow < row, RandomColor(random / 32));
        }
      }
      if newCol != col {
        var random := Random();
        balls := HitHorizontally(balls, thisBall, newCol < col, RandomColor(random / 32));
      }
    }

    /** Moves ball `id` to the empty cell (newRow, newCol). */
    method Relocate(id: Id, row: nat, col: nat, newRow: nat, newCol: nat)
      requires Valid() && places[id] == On(row, col) && newRow <= balls[id].top && newCol < SIZE
      requires grid[newRow, newCol] == MAX_BALLS
      modifies this`places, grid
      ensures Valid() && places == old(places)[id := On(newRow, newCol)]
    {
      grid[row, col] := MAX_BALLS;
      grid[newRow, newCol] := id;
      places := places[id := On(newRow, newCol)];
    }

    /** The balls on the grid. */
    ghost function OnGrid(): nat
      requires |places| == MAX_BALLS
      reads this
    {
      (if places[0].On? then 1 else 0) + (if places[1].On? then 1 else 0)
    }

    /** Turns the ball's counters and says where it wants to go. */
    method Advance(id: Id, row: nat, col: nat) returns (newRow: nat, newCol: nat)
      requires Valid() && places[id] == On(row, col)
      modifies this`balls
      ensures Valid() && (On(newRow, newCol), balls[id]) == Moved(old(balls[id]), row, col)
      ensures balls[Other(id)] == old(balls[Other(id)])
    {
      var (toCol, sideways) := MoveHorizontally(balls[id], col);
      var (toRow, moved) := MoveVertically(sideways, row);
      balls := balls[id := moved];
      newRow, newCol := toRow, toCol;
    }

    /**
     Gives the ball at (row, col) its turn. It goes where its motion takes it, unless the other ball is there;
     then neither moves, and they collide.
     */
    method Visit(id: Id, row: nat, col: nat, disabled: bool) returns (collided: bool)
      requires Valid() && places[id] == On(row, col)
      modifies this`balls, this`repeats, this`drawn, this`places, grid
      ensures Valid() && collided == (old(places[Other(id)]) == Moved(old(balls[id]), row, col).0)
      ensures !collided ==>
                && places == old(places)[id := Moved(old(balls[id]), row, col).0]
                && balls == old(balls)[id := Moved(old(balls[id]), row, col).1] && drawn == old(drawn)
      ensures collided ==> places == old(places)
      ensures collided ==>
                var (to, moved) := Moved(old(balls[id]), row, col);
                var v, h := to.row != row && !disabled, to.col != col;
                && balls[id] == moved.(vCount := if v then OVERRIDE else moved.vCount,
                                       hCount := if h then OVERRIDE else moved.hCount)
                && balls[Other(id)].falling == (if v then !moved.falling else old(balls[Other(id)].falling))
                && balls[Other(id)].leftward == (if h then !moved.leftward else old(balls[Other(id)].leftward))
    {
      var newRow, newCol := Advance(id, row, col);
      var found := grid[newRow, newCol];
      collided := false;
      if found >= MAX_BALLS {
        Relocate(id, row, col, newRow, newCol);
      } else if found != id {
        Collide(id, row, col, newRow, newCol, disabled);
        collided := true;
      }
    }

    /** A ball not seen yet is at (row, col) or later in the scan. */
    ghost predicate Ahead(id: Id, seen: set<Id>, row: nat, col: nat)
      requires |places| == MAX_BALLS
      reads this
    {
      places[id].On? && id !in seen ==> row < places[id].row || (row == places[id].row && col <= places[id].col)
    }

    /** The scan from (row, col) on still finds every ball it has not seen. */
    ghost predicate Complete(seen: set<Id>, row: nat, col: nat)
      requires |places| == MAX_BALLS
      reads this
    {
      Ahead(0, seen, row, col) && Ahead(1, seen, row, col)
    }

    ghost function Now(): Scene
      reads this
    {
      Scene(places, balls)
    }

    /** A turn as the scan sees it. */
    method Meet(id: Id, row: nat, col: nat, disabled: bool) returns (collided: bool)
      requires Valid() && places[id] == On(row, col)
      modifies this`balls, this`repeats, this`drawn, this`places, grid
      ensures Valid() && places[id].On? && places[Other(id)] == old(places[Other(id)])
      ensures Follows(Turned, old(Now()), 1, Now())
      ensures collided == Bumps(old(Now()), id)
    {
      collided := Visit(id, row, col, disabled);
      assert FollowsBy(Turned, old(Now()), 1, Now(), id);
    }

    /** Scans the cell (row, col): a ball there has its turn and is counted. */
    method ScanCell(row: nat, col: nat, disabled: seq<bool>, ghost seen: set<Id>)
      returns (hit: nat, disabled': seq<bool>, ghost seen': set<Id>)
      requires Valid() && row < SIZE && col < SIZE && |disabled| == MAX_BALLS && Complete(seen, row, col)
      modifies this`balls, this`repeats, this`drawn, this`places, grid
      ensures Valid() && |disabled'| == MAX_BALLS && Complete(seen', row, col + 1)
      ensures hit <= 1 && Seen(seen) <= Seen(seen') <= Seen(seen) + hit
      ensures var id := Occupant(old(places), row, col);
              disabled' == if id < MAX_BALLS && Bumps(old(Now()), id) then disabled[Other(id) := true] else disabled
      ensures Follows(Turned, old(Now()), hit, Now())
    {
      hit, disabled', seen' := 0, disabled, seen;
      if grid[row, col] < MAX_BALLS {
        var id: Id := grid[row, col];
        var collided := Meet(id, row, col, disabled[id]);
        hit, seen' := 1, seen + {id};
        if collided {
          disabled' := disabled[Other(id) := true];
        }
      }
    }

    /** Scans one row. */
    method ScanRow(row: nat, disabled: seq<bool>, ghost seen: set<Id>)
      returns (hits: nat, disabled': seq<bool>, ghost seen': set<Id>)
      requires Valid() && row < SIZE && |disabled| == MAX_BALLS && Complete(seen, row, 0)
      modifies this`balls, this`repeats, this`drawn, this`places, grid
      ensures Valid() && |disabled'| == MAX_BALLS && Complete(seen', row + 1, 0)
      ensures hits <= SIZE && Seen(seen') <= Seen(seen) + hits
      ensures Follows(Turned, old(Now()), hits, Now())
    {
      hits, disabled', seen' := 0, disabled, seen;
      for col := 0 to SIZE
        invariant Valid() && |disabled'| == MAX_BALLS && Complete(seen', row, col)
        invariant hits <= col && Seen(seen') <= Seen(seen) + hits
        invariant Follows(Turned, old(Now()), hits, Now())
      {
        ghost var before := Now();
        var hit;
        hit, disabled', seen' := ScanCell(row, col, disabled', seen');
        FollowsOn(Turned, old(Now()), hits, before, hit, Now(), hits + hit);
        hits := hits + hit;
      }
    }

    /**
     Scans the grid row by row. No ball leaves or enters it, and although a ball that moves ahead
     of the scan is counted again, none is missed: the count is at least the number of balls.
     */
    method Scan() returns (count: nat)
      requires Valid()
      modifies this`balls, this`repeats, this`drawn, this`places, grid
      ensures Valid()
      ensures forall id: Id :: places[id].On? <==> old(places[id].On?)
      ensures OnGrid() <= count <= SIZE * SIZE
      ensures Follows(Turned, old(Now()), count, Now())
    {
      count := 0;
      var disabled := [false, false];
      ghost var seen: set<Id> := {};
      for row := 0 to SIZE
        invariant Valid() && |disabled| == MAX_BALLS && Complete(seen, row, 0)
        invariant Seen(seen) <= count <= row * SIZE
        invariant Follows(Turned, old(Now()), count, Now())
      {
        ghost var before := Now();
        var hits;
        hits, disabled, seen := ScanRow(row, disabled, seen);
        FollowsOn(Turned, old(Now()), count, before, hits, Now(), count + hits);
        count := count + hits;
      }
    }

    /** Ball `id` is at the side that the direction says, at its ceiling, in row 2 or above. */
    ghost predicate Entered(id: Id)
      requires |places| == MAX_BALLS && Pair(balls)
      reads this
    {
      && places[id].On? && places[id].col == (if direction then SIZE - 1 else 0)
      && places[id].row == balls[id].top >= 2 && balls[id].leftward == direction && !balls[id].falling
    }

    /** The cell that the draws from `n` on choose for the next ball is taken. */
    ghost predicate Blocked(n: nat)
      requires |places| == MAX_BALLS
      reads this
    {
      var low := stream(n + 1) % 8;
      On(if low < SIZE - 2 then low + 2 else SIZE - 1, if direction then SIZE - 1 else 0) in places
    }

    /** Drops a new ball, unless one was dropped lately or its cell is taken. */
    method NewBall() returns (created: bool)
      requires Valid() && places[index].Off?
      modifies this`balls, this`index, this`delay, this`direction, this`drawn, this`places, grid
      ensures Valid()
      ensures created ==>
                && index == Other(old(index)) && places[old(index)].On?
                && places == old(places)[old(index) := places[old(index)]]
      ensures !created ==> index == old(index) && places == old(places)
      ensures created ==> Entered(old(index))
      ensures !created && delay == 0 ==> Blocked(old(drawn))
      ensures balls[Other(old(index))] == old(balls[Other(index)])
      ensures delay == if old(delay) + 1 < DELAY_LIMIT then old(delay) + 1 else 0
      ensures direction == if delay == 0 then !old(direction) else old(direction)
      ensures created ==> delay == 0
    {
      delay := delay + 1;
      if delay < DELAY_LIMIT {
        return false;
      }
      delay := 0;
      Turn();
      created := Drop();
    }

    /** Lets the next ball come in from the side opposite to the last one. */
    method Turn()
      requires Valid()
      modifies this`direction, this`balls
      ensures Valid() && direction == !old(direction) && balls[Other(index)] == old(balls[Other(index)])
    {
      direction := !direction;
      balls := balls[index := balls[index].(leftward := direction)];
    }

    /** Rows 2 to 7; the highest is the likeliest. */
    method DrawRow() returns (row: nat)
      modifies this`drawn
      ensures 2 <= row < SIZE && drawn == old(drawn) + 1
      ensures var low := stream(old(drawn)) % 8;
              row == if low < SIZE - 2 then low + 2 else SIZE - 1
    {
      var random := Random();
      row := random % 8 + 2;
      row := if row >= SIZE then SIZE - 1 else row;
    }

    /** Drops the next ball at a height of chance, with a slowdown and a colour of chance, if the cell is empty. */
    method Drop() returns (created: bool)
      requires Valid() && places[index].Off?
      modifies this`balls, this`index, this`drawn, this`places, grid
      ensures Valid()
      ensures created ==>
                && index == Other(old(index)) && places[old(index)].On?
                && places == old(places)[old(index) := places[old(index)]]
                && balls == old(balls)[old(index) := balls[old(index)]]
      ensures created ==>
                var b, n := balls[old(index)], old(drawn);
                && Entered(old(index)) && b.hCount == b.vCount == 0 && b.color == RandomColor(stream(n))
                && b.top == (if stream(n + 1) % 8 < 6 then stream(n + 1) % 8 + 2 else 7)
                && b.hFactor == 8 + stream(n + 2) % 32
      ensures !created ==> index == old(index) && places == old(places) && balls == old(balls) && Blocked(old(drawn))
    {
      var random := Random();
      var color := RandomColor(random);
      var col := if direction then SIZE - 1 else 0;
      var row := DrawRow();
      created := grid[row, col] >= MAX_BALLS;
      if created {
        random := Random();
        Place(row, col, Ball(direction, 8 + random % 32, 0, false, 0, row, color));
      }
    }

    /** Puts the next ball in the empty cell (row, col). */
    method Place(row: nat, col: nat, b: Ball)
      requires Valid() && places[index].Off? && row < SIZE && col < SIZE && grid[row, col] == MAX_BALLS
      requires b.top == row && b.color < NUM_COLORS && Counts(b) && HasPace(b)
      modifies this`balls, this`index, this`places, grid
      ensures Valid() && index == Other(old(index))
      ensures places == old(places)[old(index) := On(row, col)] && balls == old(balls)[old(index) := b]
    {
      grid[row, col] := index;
      places := places[index := On(row, col)];
      balls := balls[index := b];
      index := Other(index);
    }

    /**
     One frame. No ball ever leaves the grid, and at most one enters it: the one whose turn it is,
     and only when it was not there. The frame ends with no more balls on the grid than it reports.
     */
    method Frame() returns (count: nat)
      requires Valid()
      modifies this`balls, this`index, this`delay, this`direction, this`repeats, this`drawn, this`places, grid
      ensures Valid()
      ensures forall id: Id :: old(places[id].On?) ==> places[id].On?
      ensures places[Other(old(index))].On? <==> old(places[Other(index)].On?)
      ensures old(OnGrid()) <= OnGrid() <= old(OnGrid()) + 1
      ensures OnGrid() <= count <= SIZE * SIZE + 1
      ensures forall id: Id :: Alone(old(Now()), id) ==>
                State(places[id], balls[id]) ==
                Travelled(Turned, old(State(places[id], balls[id])),
                          if places[Other(id)].On? && count > 0 then count - 1 else count)
    {
      count := Scan();
      if count < MAX_BALLS {
        var created := NewBall();
        if created {
          count := count + 1;
        }
      }
    }
  }
}
