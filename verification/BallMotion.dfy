/**
 How a ball of the demo travels: it rests in a cell for as many turns as its slowdown says,
 goes one cell on, and at either end of its track turns and leaves again at once.
 */
module BallMotion {
  import opened Bytes
  import opened Balls

  // ----- A track

  /** A position on a track of cells 0 to `top`, the direction, and the turns spent in the cell. */
  datatype Slider = Slider(down: bool, count: nat, at: nat)

  /** The turns a ball rests in a cell. */
  type Pace = nat -> nat

  /** Every cell takes some turns, and fewer than the counters can count. */
  ghost predicate IsPace(pace: Pace, top: nat) {
    forall i: nat :: i <= top ==> 0 < pace(i) < 255
  }

  /** The end of the track the ball is going to. */
  function End(s: Slider, top: nat): nat {
    if s.down then 0 else top
  }

  function Onward(s: Slider): int {
    if s.down then s.at - 1 else s.at + 1
  }

  /** One turn: the ball rests, goes on, or turns round at the end of the track. */
  function Slide(s: Slider, top: nat, pace: Pace): Slider {
    if s.count + 1 < pace(s.at) then s.(count := s.count + 1)
    else if s.at == End(s, top) then Slider(!s.down, pace(s.at), s.at)
    else Slider(s.down, 0, Onward(s))
  }

  /** The horizontal motion of a ball, on the eight columns. */
  function Across(b: Ball, col: nat): Slider {
    Slider(b.leftward, b.hCount, col)
  }

  function AcrossPace(b: Ball): Pace {
    (i: nat) => b.hFactor
  }

  /** The vertical motion, on the rows up to the ball's ceiling: the slower the higher. */
  function UpDown(b: Ball, row: nat): Slider {
    Slider(b.falling, b.vCount, row)
  }

  function FallPace(top: nat): Pace
    requires top < SIZE
  {
    (i: nat) => FALL_FACTORS[(top - i) % 8]
  }

  lemma AcrossIsSlide(b: Ball, col: nat)
    requires col < SIZE && b.hCount < 255
    ensures var (to, moved) := MoveHorizontally(b, col);
            && Across(moved, to) == Slide(Across(b, col), SIZE - 1, AcrossPace(b))
            && moved == b.(leftward := moved.leftward, hCount := moved.hCount)
  {
  }

  lemma UpDownIsSlide(b: Ball, row: nat, pace: Pace)
    requires row <= b.top < SIZE && b.vCount < 255 && pace == FallPace(b.top)
    ensures var (to, moved) := MoveVertically(b, row);
            && UpDown(moved, to) == Slide(UpDown(b, row), b.top, pace)
            && moved == b.(falling := moved.falling, vCount := moved.vCount)
  {
    assert pace(row) == FALL_FACTORS[(b.top - row) % 8];
  }

  lemma FallPaceIs(top: nat, i: nat)
    requires i <= top < SIZE
    ensures FallPace(top)(i) == FALL_FACTORS[top - i] && 3 <= FALL_FACTORS[top - i] <= 12
  {
  }

  // ----- Turn after turn

  type Stepper = Slider -> Slider

  function Track(top: nat, pace: Pace): Stepper {
    s => Slide(s, top, pace)
  }

  function Slides(step: Stepper, s: Slider, n: nat): Slider {
    if n == 0 then s else step(Slides(step, s, n - 1))
  }

  lemma {:induction false} SlidesAdd(step: Stepper, s: Slider, n: nat, more: nat)
    ensures Slides(step, s, n + more) == Slides(step, Slides(step, s, n), more)
    decreases more
  {
    if more == 0 {
    } else {
      SlidesAdd(step, s, n, more - 1);
    }
  }

  /** `n` turns lead from `s` to `to`. */
  ghost predicate Leads(step: Stepper, s: Slider, n: nat, to: Slider) {
    Slides(step, s, n) == to
  }

  lemma Chain(step: Stepper, s: Slider, n: nat, mid: Slider, more: nat, to: Slider, total: nat)
    requires Leads(step, s, n, mid) && Leads(step, mid, more, to) && total == n + more
    ensures Leads(step, s, total, to)
  {
    SlidesAdd(step, s, n, more);
  }

  lemma ChainTwo(step: Stepper, s: Slider, n: nat, a: Slider, m: nat, b: Slider, more: nat, to: Slider, total: nat)
    requires Leads(step, s, n, a) && Leads(step, a, m, b) && Leads(step, b, more, to) && total == n + m + more
    ensures Leads(step, s, total, to)
  {
    Chain(step, s, n, a, m, b, n + m);
    Chain(step, s, n + m, b, more, to, total);
  }

  /** A ball rests until its counter is one short of the pace. */
  lemma {:induction false} Rests(step: Stepper, top: nat, pace: Pace, s: Slider, n: nat)
    requires step == Track(top, pace) && s.count + n < pace(s.at)
    ensures Leads(step, s, n, s.(count := s.count + n))
    decreases n
  {
    if n == 0 {
    } else {
      Rests(step, top, pace, s, n - 1);
    }
  }

  /** At the turn after that it goes one cell on, or turns round at the end. */
  lemma Leaves(step: Stepper, top: nat, pace: Pace, s: Slider)
    requires step == Track(top, pace) && s.at <= top && s.count < pace(s.at)
    ensures Leads(step, s, pace(s.at) - s.count,
                  if s.at == End(s, top) then Slider(!s.down, pace(s.at), s.at) else Slider(s.down, 0, Onward(s)))
  {
    Rests(step, top, pace, s, pace(s.at) - s.count - 1);
  }

  /** Having turned round, it leaves the end at its next turn. */
  lemma TurnsRound(step: Stepper, top: nat, pace: Pace, s: Slider)
    requires step == Track(top, pace) && s.at == End(s, top) && 0 < top && s.count < pace(s.at)
    ensures Leads(step, s, pace(s.at) - s.count + 1, Slider(!s.down, 0, if s.down then 1 else top - 1))
  {
    Leaves(step, top, pace, s);
  }

  lemma CellIsLeft(step: Stepper, top: nat, pace: Pace, s: Slider, n: nat)
    requires step == Track(top, pace) && s.at <= top && s.at != End(s, top)
    requires s.count < pace(s.at) && n <= pace(s.at) - s.count
    ensures Leads(step, s, n,
                  if n < pace(s.at) - s.count then s.(count := s.count + n) else Slider(s.down, 0, Onward(s)))
  {
    if n < pace(s.at) - s.count {
      Rests(step, top, pace, s, n);
    } else {
      Leaves(step, top, pace, s);
    }
  }

  lemma EndIsLeft(step: Stepper, top: nat, pace: Pace, s: Slider, n: nat)
    requires step == Track(top, pace) && 0 < top && s.at == End(s, top)
    requires s.count < pace(s.at) && n <= pace(s.at) - s.count + 1
    ensures Leads(step, s, n,
                  if n < pace(s.at) - s.count then s.(count := s.count + n)
                  else if n == pace(s.at) - s.count then Slider(!s.down, pace(s.at), s.at)
                  else Slider(!s.down, 0, if s.down then 1 else top - 1))
  {
    if n < pace(s.at) - s.count {
      Rests(step, top, pace, s, n);
    } else if n == pace(s.at) - s.count {
      Leaves(step, top, pace, s);
    } else {
      TurnsRound(step, top, pace, s);
    }
  }

  // ----- From end to end

  /** The turns spent in the cells `i` to `j - 1`. */
  function Stay(pace: Pace, i: nat, j: nat): nat
    requires i <= j
  {
    if i == j then 0 else Stay(pace, i, j - 1) + pace(j - 1)
  }

  lemma {:induction false} Rises(step: Stepper, top: nat, pace: Pace, i: nat, j: nat)
    requires step == Track(top, pace) && i <= j <= top && IsPace(pace, top)
    ensures Leads(step, Slider(false, 0, i), Stay(pace, i, j), Slider(false, 0, j))
    decreases j
  {
    if i == j {
    } else {
      var last := Slider(false, 0, j - 1);
      Rises(step, top, pace, i, j - 1);
      Leaves(step, top, pace, last);
      Chain(step, Slider(false, 0, i), Stay(pace, i, j - 1), last, pace(j - 1), Slider(false, 0, j), Stay(pace, i, j));
    }
  }

  lemma {:induction false} Falls(step: Stepper, top: nat, pace: Pace, i: nat, j: nat)
    requires step == Track(top, pace) && i < j <= top + 1 && IsPace(pace, top)
    ensures Leads(step, Slider(true, 0, j - 1), Stay(pace, i + 1, j), Slider(true, 0, i))
    decreases j - i
  {
    if i + 1 == j {
    } else {
      var last := Slider(true, 0, i + 1);
      Falls(step, top, pace, i + 1, j);
      Leaves(step, top, pace, last);
      StayFirst(pace, i + 1, j);
      Chain(step, Slider(true, 0, j - 1), Stay(pace, i + 2, j), last, pace(i + 1), Slider(true, 0, i),
            Stay(pace, i + 1, j));
    }
  }

  lemma {:induction false} StayFirst(pace: Pace, i: nat, j: nat)
    requires i < j
    ensures Stay(pace, i, j) == pace(i) + Stay(pace, i + 1, j)
    decreases j
  {
    if i + 1 == j {
    } else {
      StayFirst(pace, i, j - 1);
    }
  }

  /** The turns of a whole journey up and down the track. */
  function Journey(pace: Pace, top: nat): nat
    requires 0 < top
  {
    2 * Stay(pace, 1, top) + pace(0) + pace(top) + 2
  }

  /** What a ball passes through on its journeys; it leaves either end at once after turning there. */
  predicate OnJourney(s: Slider, top: nat, pace: Pace) {
    s.at <= top && s.count < pace(s.at) && s.at != if s.down then top else 0
  }

  /** The turns from the cell above the floor to a state of the journey. */
  function Since(s: Slider, top: nat, pace: Pace): nat
    requires 0 < top && OnJourney(s, top, pace)
  {
    s.count + if s.down then Stay(pace, 1, top) + pace(top) + 1 + Stay(pace, s.at + 1, top)
              else Stay(pace, 1, s.at)
  }

  lemma JourneyFalls(step: Stepper, top: nat, pace: Pace, at: nat, turns: nat)
    requires step == Track(top, pace) && at < top && IsPace(pace, top)
    requires turns == Stay(pace, 1, top) + pace(top) + 1 + Stay(pace, at + 1, top)
    ensures Leads(step, Slider(false, 0, 1), turns, Slider(true, 0, at))
  {
    var ceiling, back := Slider(false, 0, top), Slider(true, 0, top - 1);
    Rises(step, top, pace, 1, top);
    TurnsRound(step, top, pace, ceiling);
    Falls(step, top, pace, at, top);
    ChainTwo(step, Slider(false, 0, 1), Stay(pace, 1, top), ceiling, pace(top) + 1, back, Stay(pace, at + 1, top),
             Slider(true, 0, at), turns);
  }

  lemma JourneyPasses(step: Stepper, top: nat, pace: Pace, s: Slider, since: nat)
    requires step == Track(top, pace) && 0 < top && IsPace(pace, top) && OnJourney(s, top, pace)
    requires since == Since(s, top, pace)
    ensures Leads(step, Slider(false, 0, 1), since, s)
  {
    var whole := s.(count := 0);
    if s.down {
      JourneyFalls(step, top, pace, s.at, since - s.count);
    } else {
      Rises(step, top, pace, 1, s.at);
    }
    Rests(step, top, pace, whole, s.count);
    Chain(step, Slider(false, 0, 1), since - s.count, whole, s.count, s, since);
  }

  /** A journey from the cell above the floor leads back to it. */
  lemma JourneyReturns(step: Stepper, top: nat, pace: Pace)
    requires step == Track(top, pace) && 0 < top && IsPace(pace, top)
    ensures Leads(step, Slider(false, 0, 1), Journey(pace, top), Slider(false, 0, 1))
  {
    var start, floor := Slider(false, 0, 1), Slider(true, 0, 0);
    JourneyPasses(step, top, pace, floor, Since(floor, top, pace));
    TurnsRound(step, top, pace, floor);
    Chain(step, start, Since(floor, top, pace), floor, pace(0) + 1, start, Journey(pace, top));
  }

  /** From wherever it is, a ball is back in the same cell, going the same way, after one journey. */
  lemma SlidesRepeat(step: Stepper, top: nat, pace: Pace, s: Slider)
    requires step == Track(top, pace) && 0 < top && IsPace(pace, top) && OnJourney(s, top, pace)
    ensures Leads(step, s, Journey(pace, top), s)
  {
    var start, since, journey := Slider(false, 0, 1), Since(s, top, pace), Journey(pace, top);
    JourneyPasses(step, top, pace, s, since);
    JourneyReturns(step, top, pace);
    Chain(step, start, journey, start, since, s, since + journey);
    SlidesAdd(step, start, since, journey);
  }

  // ----- A ball by itself

  /** A ball that can be on the grid. */
  predicate Paced(b: Ball) {
    0 < b.hFactor < 255 && b.hCount < 255 && b.vCount < 255 && b.top < SIZE
  }

  lemma FallPaceIsPace(top: nat)
    requires top < SIZE
    ensures IsPace(FallPace(top), top)
  {
    forall i: nat | i <= top ensures 0 < FallPace(top)(i) < 255 {
      FallPaceIs(top, i);
    }
  }

  lemma MovedIsSlide(b: Ball, row: nat, col: nat)
    requires Paced(b) && row <= b.top && col < SIZE
    ensures var (to, moved) := Moved(b, row, col);
            && Across(moved, to.col) == Slide(Across(b, col), SIZE - 1, AcrossPace(b))
            && UpDown(moved, to.row) == Slide(UpDown(b, row), b.top, FallPace(b.top))
            && Paced(moved) && moved.hFactor == b.hFactor && moved.top == b.top && moved.color == b.color
  {
    AcrossIsSlide(b, col);
    var sideways := MoveHorizontally(b, col).1;
    UpDownIsSlide(sideways, row, FallPace(b.top));
    FallPaceIs(b.top, row);
  }

  /** The two motions of a ball do not depend on each other. */
  lemma {:induction false} TravelsBothWays(s: State, n: nat)
    requires IsState(s) && Paced(s.ball)
    ensures var b, to := s.ball, Travelled(Turned, s, n);
            && IsState(to) && Paced(to.ball)
            && Leads(Track(SIZE - 1, AcrossPace(b)), Across(b, s.place.col), n, Across(to.ball, to.place.col))
            && Leads(Track(b.top, FallPace(b.top)), UpDown(b, s.place.row), n, UpDown(to.ball, to.place.row))
            && to.ball.hFactor == b.hFactor && to.ball.top == b.top && to.ball.color == b.color
    decreases n
  {
    if n == 0 {
    } else {
      TravelsBothWays(s, n - 1);
      var before := Travelled(Turned, s, n - 1);
      MovedIsSlide(before.ball, before.place.row, before.place.col);
    }
  }

  /** Until its counter is at its slowdown a ball stays in its column, and then it goes one on, its way. */
  lemma ColumnIsLeft(s: State, b: Ball, at: Place, n: nat)
    requires s == State(at, b) && IsState(s) && Paced(b) && b.hCount < b.hFactor && n <= b.hFactor - b.hCount
    requires at.col != if b.leftward then 0 else SIZE - 1
    ensures var State(to, ball) := Travelled(Turned, s, n);
            && to.On?
            && ball.leftward == b.leftward
            && to.col == if n < b.hFactor - b.hCount then at.col else if b.leftward then at.col - 1 else at.col + 1
  {
    TravelsBothWays(s, n);
    CellIsLeft(Track(SIZE - 1, AcrossPace(b)), SIZE - 1, AcrossPace(b), Across(b, at.col), n);
  }

  /** At a wall it turns round instead, and goes away from the wall at its next turn. */
  lemma WallIsLeft(s: State, b: Ball, at: Place, n: nat)
    requires s == State(at, b) && IsState(s) && Paced(b) && b.hCount < b.hFactor && n <= b.hFactor - b.hCount + 1
    requires at.col == if b.leftward then 0 else SIZE - 1
    ensures var State(to, ball) := Travelled(Turned, s, n);
            && to.On?
            && (ball.leftward == b.leftward <==> n < b.hFactor - b.hCount)
            && to.col == if n <= b.hFactor - b.hCount then at.col else if b.leftward then 1 else SIZE - 2
  {
    TravelsBothWays(s, n);
    EndIsLeft(Track(SIZE - 1, AcrossPace(b)), SIZE - 1, AcrossPace(b), Across(b, at.col), n);
  }

  /** The rows likewise, each with its own slowdown: less the further it is below the ball's ceiling. */
  lemma RowIsLeft(s: State, b: Ball, at: Place, n: nat, pace: nat)
    requires s == State(at, b) && IsState(s) && Paced(b)
    requires pace == FALL_FACTORS[b.top - at.row] && b.vCount < pace && n <= pace - b.vCount
    requires at.row != if b.falling then 0 else b.top
    ensures var State(to, ball) := Travelled(Turned, s, n);
            && to.On?
            && ball.falling == b.falling
            && to.row == if n < pace - b.vCount then at.row else if b.falling then at.row - 1 else at.row + 1
  {
    FallPaceIs(b.top, at.row);
    TravelsBothWays(s, n);
    CellIsLeft(Track(b.top, FallPace(b.top)), b.top, FallPace(b.top), UpDown(b, at.row), n);
  }

  /** Floor and ceiling turn a ball round. */
  lemma FloorIsLeft(s: State, b: Ball, at: Place, n: nat, pace: nat)
    requires s == State(at, b) && IsState(s) && Paced(b) && pace == FALL_FACTORS[b.top - at.row]
    requires 0 < b.top && b.vCount < pace && n <= pace - b.vCount + 1
    requires at.row == if b.falling then 0 else b.top
    ensures var State(to, ball) := Travelled(Turned, s, n);
            && to.On?
            && (ball.falling == b.falling <==> n < pace - b.vCount)
            && to.row == if n <= pace - b.vCount then at.row else if b.falling then 1 else b.top - 1
  {
    FallPaceIs(b.top, at.row);
    TravelsBothWays(s, n);
    EndIsLeft(Track(b.top, FallPace(b.top)), b.top, FallPace(b.top), UpDown(b, at.row), n);
  }

  lemma {:induction false} AcrossStay(b: Ball, i: nat, j: nat)
    requires i <= j
    ensures Stay(AcrossPace(b), i, j) == (j - i) * b.hFactor
    decreases j
  {
    if i == j {
    } else {
      AcrossStay(b, i, j - 1);
    }
  }

  lemma AcrossJourney(b: Ball)
    requires 0 < b.hFactor
    ensures Journey(AcrossPace(b), SIZE - 1) == 14 * b.hFactor + 2
  {
    AcrossStay(b, 1, SIZE - 1);
  }

  /** With slowdown `f` the column repeats every 14 f + 2 turns. */
  lemma ColumnsRepeat(s: State, b: Ball, at: Place, turns: nat)
    requires s == State(at, b) && IsState(s) && Paced(b) && OnJourney(Across(b, at.col), SIZE - 1, AcrossPace(b))
    requires turns == 14 * b.hFactor + 2
    ensures var State(to, ball) := Travelled(Turned, s, turns);
            to.On? && to.col == at.col && ball.leftward == b.leftward && ball.hCount == b.hCount
  {
    AcrossJourney(b);
    TravelsBothWays(s, turns);
    SlidesRepeat(Track(SIZE - 1, AcrossPace(b)), SIZE - 1, AcrossPace(b), Across(b, at.col));
  }

  /** A ball with the highest ceiling falls and rises in 97 turns. */
  lemma RowsRepeat(s: State, b: Ball, at: Place)
    requires s == State(at, b) && IsState(s) && Paced(b)
    requires 0 < b.top && OnJourney(UpDown(b, at.row), b.top, FallPace(b.top))
    ensures var State(to, ball) := Travelled(Turned, s, Journey(FallPace(b.top), b.top));
            to.On? && to.row == at.row && ball.falling == b.falling && ball.vCount == b.vCount
    ensures b.top == SIZE - 1 ==> Journey(FallPace(b.top), b.top) == 97
  {
    var pace := FallPace(b.top);
    TravelsBothWays(s, Journey(pace, b.top));
    FallPaceIsPace(b.top);
    SlidesRepeat(Track(b.top, pace), b.top, pace, UpDown(b, at.row));
    if b.top == SIZE - 1 {
      HighestStay(pace);
    }
  }

  lemma HighestStay(pace: Pace)
    requires pace == FallPace(SIZE - 1)
    ensures Stay(pace, 1, SIZE - 1) == 40 && pace(0) == 3 && pace(SIZE - 1) == 12
  {
    assert Stay(pace, 1, 3) == 9;
    assert Stay(pace, 1, 5) == 22;
    assert Stay(pace, 1, 7) == 40;
  }
}
