/** Sector geometry over reals: where a fixture is, which side it is on, how it
    moves, and the In/Gray/Leave machine of SectorSystem::Update. */
module SectorGeometry {

  datatype Direction = Up | UpRight | Right | DownRight | Down | DownLeft | Left | UpLeft | Max

  datatype Location = In | Gray | Leave

  datatype Rect = Rect(up: real, down: real, left: real, right: real)

  datatype Fixture = Fixture(
    x: real, y: real, w: real, h: real,
    force: real, direction: Direction,
    location: Location, phase: Direction, observing: bool,
    lastTransform: int, personalDelta: nat)

  /** Corner, size and the width of the gray band. */
  datatype Sector = Sector(x: real, y: real, w: real, h: real, band: real)

  function RectAt(x: real, y: real, w: real, h: real, anchor: real): Rect {
    Rect(y + h * (1.0 - anchor), y - h * anchor, x - w * anchor, x + w * (1.0 - anchor))
  }

  function Box(f: Fixture): Rect { RectAt(f.x, f.y, f.w, f.h, 0.5) }

  function Outer(s: Sector): Rect { RectAt(s.x, s.y, s.w, s.h, 0.0) }

  function Inner(s: Sector): Rect {
    RectAt(s.x + s.band, s.y + s.band, s.w - s.band * 2.0, s.h - s.band * 2.0, 0.0)
  }

  /** FixtureRectangleOverlap. */
  predicate Overlap(a: Rect, b: Rect) {
    && !(a.up == a.down || a.left == a.right || b.up == b.down || b.left == b.right)
    && !(a.left > b.right || b.left > a.right)
    && !(a.down > b.up || b.down > a.up)
  }

  predicate Proper(r: Rect) { r.left < r.right && r.down < r.up }

  predicate Holds(r: Rect, x: real, y: real) { r.left <= x <= r.right && r.down <= y <= r.up }

  /** What the comparisons compute: proper rectangles overlap exactly when they
      share a point. */
  lemma OverlapMeansSharedPoint(a: Rect, b: Rect)
    requires Proper(a) && Proper(b)
    ensures Overlap(a, b) <==> exists x, y :: Holds(a, x, y) && Holds(b, x, y)
  {
    if Overlap(a, b) {
      var x := if a.left > b.left then a.left else b.left;
      var y := if a.down > b.down then a.down else b.down;
      assert Holds(a, x, y) && Holds(b, x, y);
    }
  }

  /** CalculateCurrentLocation. */
  function LocationOf(s: Sector, f: Fixture): Location {
    if Overlap(Inner(s), Box(f)) then In else if Overlap(Outer(s), Box(f)) then Gray else Leave
  }

  /** The fixture, w by h around its position, shares a point with [left, right] x [down, up]. */
  ghost predicate Meets(f: Fixture, left: real, right: real, down: real, up: real) {
    exists x, y :: Holds(Rect(f.y + f.h / 2.0, f.y - f.h / 2.0, f.x - f.w / 2.0, f.x + f.w / 2.0), x, y)
                   && Holds(Rect(up, down, left, right), x, y)
  }

  ghost predicate MeetsSector(s: Sector, f: Fixture) { Meets(f, s.x, s.x + s.w, s.y, s.y + s.h) }

  /** The sector without its gray band. */
  ghost predicate MeetsInner(s: Sector, f: Fixture) {
    Meets(f, s.x + s.band, s.x + s.w - s.band, s.y + s.band, s.y + s.h - s.band)
  }

  lemma BoxesAre(s: Sector, f: Fixture)
    ensures Box(f) == Rect(f.y + f.h / 2.0, f.y - f.h / 2.0, f.x - f.w / 2.0, f.x + f.w / 2.0)
    ensures Outer(s) == Rect(s.y + s.h, s.y, s.x, s.x + s.w)
    ensures Inner(s) == Rect(s.y + s.h - s.band, s.y + s.band, s.x + s.band, s.x + s.w - s.band)
  {
  }

  predicate Sized(s: Sector) { s.w > 0.0 && s.h > 0.0 }

  predicate Solid(f: Fixture) { f.w > 0.0 && f.h > 0.0 }

  /** The band leaves something inside it. */
  predicate BandFits(s: Sector) { 2.0 * s.band < s.w && 2.0 * s.band < s.h }

  /** What the three locations mean: In touches the inner box, Gray touches the
      sector but not the inner box, Leave touches neither. */
  lemma LocationMeans(s: Sector, f: Fixture)
    requires Sized(s) && BandFits(s) && Solid(f)
    ensures LocationOf(s, f) == In <==> MeetsInner(s, f)
    ensures LocationOf(s, f) == Gray <==> MeetsSector(s, f) && !MeetsInner(s, f)
    ensures LocationOf(s, f) == Leave <==> !MeetsSector(s, f) && !MeetsInner(s, f)
  {
    BoxesAre(s, f);
    OverlapMeansSharedPoint(Inner(s), Box(f));
    OverlapMeansSharedPoint(Outer(s), Box(f));
  }

  function Clamp(ratio: real): real { if ratio < 0.0 then 0.0 else if ratio > 2.0 then 2.0 else ratio }

  /** The grid index of a coordinate: a truncated, clamped count of thirds. */
  function Third(offset: real, size: real): (i: nat)
    requires size > 0.0
    ensures i <= 2
  {
    var clamped := Clamp(offset / (size / 3.0));
    clamped.Floor
  }

  const PhaseGrid: seq<seq<Direction>> := [[UpLeft, Up, UpRight], [Left, Max, Right], [DownLeft, Down, DownRight]]

  /** CalculateCurrentPhase. */
  function PhaseOf(s: Sector, f: Fixture): Direction
    requires Sized(s)
  {
    PhaseGrid[2 - Third(f.y - s.y, s.h)][Third(f.x - s.x, s.w)]
  }

  /** Indexer2: a step of the grid. */
  datatype Grid = Grid(row: int, column: int)

  function PhaseForce(d: Direction): Grid {
    match d
    case Up => Grid(1, 0)
    case UpRight => Grid(1, 1)
    case Right => Grid(0, 1)
    case DownRight => Grid(-1, 1)
    case Down => Grid(-1, 0)
    case DownLeft => Grid(-1, -1)
    case Left => Grid(0, -1)
    case UpLeft => Grid(1, -1)
    case Max => Grid(0, 0)
  }

  // ----- Phases point to sides

  /** -1, 0 or 1 for the lower, middle and upper third. */
  function Side(offset: real, size: real): int {
    if offset < size / 3.0 then -1 else if offset < 2.0 * (size / 3.0) then 0 else 1
  }

  lemma RatioCompare(d: real, t: real, k: real)
    requires t > 0.0
    ensures d / t < k <==> d < k * t
  {
    var q := d / t;
    assert q * t == d;
    if q < k {
      Scale(q, k, t);
    } else if q > k {
      Scale(k, q, t);
    }
  }

  lemma Scale(a: real, b: real, t: real)
    requires a < b && t > 0.0
    ensures a * t < b * t
  {
    assert (b - a) * t > 0.0;
  }

  lemma ThirdIsSide(offset: real, size: real)
    requires size > 0.0
    ensures Third(offset, size) == Side(offset, size) + 1
  {
    var t := size / 3.0;
    RatioCompare(offset, t, 1.0);
    RatioCompare(offset, t, 2.0);
  }

  /** PhaseForce of the phase is the pair of thirds the fixture's position is in. */
  lemma PhasePointsToSide(s: Sector, f: Fixture)
    requires Sized(s)
    ensures PhaseForce(PhaseOf(s, f)) == Grid(Side(f.y - s.y, s.h), Side(f.x - s.x, s.w))
  {
    ThirdIsSide(f.y - s.y, s.h);
    ThirdIsSide(f.x - s.x, s.w);
  }

  predicate ThinBand(s: Sector) { s.band <= s.w / 3.0 && s.band <= s.h / 3.0 }

  /** A fixture outside the inner box is wholly beyond one of its edges, and its
      phase points over that edge. */
  lemma PhaseLeavesInner(s: Sector, f: Fixture)
    requires Sized(s) && ThinBand(s) && Solid(f) && LocationOf(s, f) != In
    ensures var force := PhaseForce(PhaseOf(s, f));
            && (Box(f).left > Inner(s).right ==> force.column == 1)
            && (Box(f).right < Inner(s).left ==> force.column == -1)
            && (Box(f).down > Inner(s).up ==> force.row == 1)
            && (Box(f).up < Inner(s).down ==> force.row == -1)
            && (|| Box(f).left > Inner(s).right || Box(f).right < Inner(s).left
                || Box(f).down > Inner(s).up || Box(f).up < Inner(s).down)
  {
    PhasePointsToSide(s, f);
  }

  ghost predicate OutsideHasPhase(s: Sector)
    requires Sized(s)
  {
    forall f :: Solid(f) && LocationOf(s, f) != In ==> PhaseOf(s, f) != Max
  }

  /** A fixture on the third line, just short of a wider band. */
  function WideBandFixture(s: Sector): Fixture {
    if s.band > s.w / 3.0
    then Fixture(s.x + s.w / 3.0, s.y + s.h / 2.0, s.band - s.w / 3.0, 1.0, 0.0, Max, In, Max, false, 0, 0)
    else Fixture(s.x + s.w / 2.0, s.y + s.h / 3.0, 1.0, s.band - s.h / 3.0, 0.0, Max, In, Max, false, 0, 0)
  }

  /** Gray and Leave exclude phase Max for every solid fixture exactly when the
      gray band is at most a third of the sector each way. */
  lemma PhaseOutsideIff(s: Sector)
    requires Sized(s)
    ensures OutsideHasPhase(s) <==> ThinBand(s)
  {
    if ThinBand(s) {
      forall f | Solid(f) && LocationOf(s, f) != In
        ensures PhaseOf(s, f) != Max
      {
        PhaseLeavesInner(s, f);
      }
    } else {
      WideBandFails(s);
    }
  }

  lemma WideBandFails(s: Sector)
    requires Sized(s) && !ThinBand(s)
    ensures var f := WideBandFixture(s); Solid(f) && LocationOf(s, f) != In && PhaseOf(s, f) == Max
  {
    var f := WideBandFixture(s);
    ThirdIsSide(f.y - s.y, s.h);
    ThirdIsSide(f.x - s.x, s.w);
  }

  // ----- Moving

  function Shift(world: Rect, box: Rect): (real, real) {
    var dx := if world.left > box.left then world.left - box.left else 0.0;
    var dy := if world.down > box.down then world.down - box.down else 0.0;
    (if world.right < box.right then dx - (box.right - world.right) else dx,
     if world.up < box.up then dy - (box.up - world.up) else dy)
  }

  /** A displacement, corrected at the edges of the world. */
  function MovedBy(world: Rect, f: Fixture, mx: real, my: real): Fixture {
    var shift := Shift(world, Box(f.(x := f.x + mx, y := f.y + my)));
    f.(x := f.x + (mx + shift.0), y := f.y + (my + shift.1), personalDelta := 0)
  }

  /** Displacement along one axis. */
  function Travel(f: Fixture, delta: int, sign: int): real {
    f.force * ((delta + f.personalDelta) as real / 1000.0) * sign as real
  }

  /** Fixture::Move. */
  function Moved(world: Rect, f: Fixture, delta: int): Fixture {
    if f.direction == Max then f
    else
      var d := PhaseForce(f.direction);
      MovedBy(world, f, Travel(f, delta, d.column), Travel(f, delta, d.row))
  }

  predicate Inside(world: Rect, box: Rect) {
    world.left <= box.left && box.right <= world.right && world.down <= box.down && box.up <= world.up
  }

  predicate NotLarger(f: Fixture, world: Rect) { f.w <= world.right - world.left && f.h <= world.up - world.down }

  /** A moving fixture ends up inside the world exactly when it is no larger. */
  lemma MoveStaysInside(world: Rect, f: Fixture, delta: int)
    requires f.direction != Max
    ensures Inside(world, Box(Moved(world, f, delta))) <==> NotLarger(f, world)
  {
    var d := PhaseForce(f.direction);
    ShiftStaysInside(world, f, Travel(f, delta, d.column), Travel(f, delta, d.row));
  }

  function Within(x: real, lo: real, hi: real): real { if x < lo then lo else if x > hi then hi else x }

  /** A fixture no larger than the world goes where its displacement takes it, or
      to the nearest place inside the world. */
  lemma MoveIsNearest(world: Rect, f: Fixture, mx: real, my: real)
    requires NotLarger(f, world)
    ensures var m := MovedBy(world, f, mx, my);
            && m.x == Within(f.x + mx, world.left + f.w / 2.0, world.right - f.w / 2.0)
            && m.y == Within(f.y + my, world.down + f.h / 2.0, world.up - f.h / 2.0)
            && m == f.(x := m.x, y := m.y, personalDelta := 0)
  {
  }

  /** A fixture inside the world that moves forward in time under no negative force. */
  predicate Moving(world: Rect, f: Fixture) {
    f.direction != Max && f.force >= 0.0 && NotLarger(f, world) && Inside(world, Box(f))
  }

  /** It never moves against its direction, nor across it. */
  lemma MoveTowards(world: Rect, f: Fixture, delta: nat)
    requires Moving(world, f)
    ensures var d, m := PhaseForce(f.direction), Moved(world, f, delta);
            && (d.column >= 0 ==> m.x >= f.x) && (d.column <= 0 ==> m.x <= f.x)
            && (d.row >= 0 ==> m.y >= f.y) && (d.row <= 0 ==> m.y <= f.y)
  {
    var d := PhaseForce(f.direction);
    TravelSign(f, delta, d.column);
    TravelSign(f, delta, d.row);
    MoveIsNearest(world, f, Travel(f, delta, d.column), Travel(f, delta, d.row));
  }

  lemma TravelSign(f: Fixture, delta: nat, sign: int)
    requires f.force >= 0.0 && -1 <= sign <= 1
    ensures sign >= 0 ==> Travel(f, delta, sign) >= 0.0
    ensures sign <= 0 ==> Travel(f, delta, sign) <= 0.0
  {
    var way := f.force * ((delta + f.personalDelta) as real / 1000.0);
    assert way >= 0.0;
    assert sign == 1 ==> way * sign as real == way;
    assert sign == -1 ==> way * sign as real == -way;
    assert sign == 0 ==> way * sign as real == 0.0;
  }

  predicate Rightward(d: Direction) { d == Right || d == UpRight || d == DownRight }
  predicate Leftward(d: Direction) { d == Left || d == UpLeft || d == DownLeft }
  predicate Upward(d: Direction) { d == Up || d == UpLeft || d == UpRight }
  predicate Downward(d: Direction) { d == Down || d == DownLeft || d == DownRight }

  /** Where a second at full force takes a fixture in its direction. */
  function SecondAhead(f: Fixture): Fixture {
    var x := if Rightward(f.direction) then f.x + f.force else if Leftward(f.direction) then f.x - f.force else f.x;
    var y := if Upward(f.direction) then f.y + f.force else if Downward(f.direction) then f.y - f.force else f.y;
    f.(x := x, y := y)
  }

  /** A move over 1000 ms, the fixture's own extra time included, that stays inside
      the world displaces it by its force along each axis of its direction. */
  lemma ForceIsPerSecond(world: Rect, f: Fixture, delta: int)
    requires delta + f.personalDelta == 1000 && Inside(world, Box(SecondAhead(f)))
    ensures Moved(world, f, delta) ==
            SecondAhead(f).(personalDelta := if f.direction == Max then f.personalDelta else 0)
  {
    if f.direction != Max {
      var d := PhaseForce(f.direction);
      TravelOfSecond(f, delta, d.column);
      TravelOfSecond(f, delta, d.row);
      UnclampedMove(world, f, Travel(f, delta, d.column), Travel(f, delta, d.row));
    }
  }

  lemma TravelOfSecond(f: Fixture, delta: int, sign: int)
    requires delta + f.personalDelta == 1000 && -1 <= sign <= 1
    ensures Travel(f, delta, sign) == if sign == 1 then f.force else if sign == 0 then 0.0 else -f.force
  {
    var way := f.force * ((delta + f.personalDelta) as real / 1000.0);
    assert way == f.force * 1.0;
    assert sign == 1 ==> way * sign as real == way;
    assert sign == -1 ==> way * sign as real == -way;
    assert sign == 0 ==> way * sign as real == 0.0;
  }

  lemma UnclampedMove(world: Rect, f: Fixture, mx: real, my: real)
    requires Inside(world, Box(f.(x := f.x + mx, y := f.y + my)))
    ensures MovedBy(world, f, mx, my) == f.(x := f.x + mx, y := f.y + my, personalDelta := 0)
  {
  }

  /** A displacement with each coordinate held inside the world. */
  function Displaced(world: Rect, f: Fixture, tx: real, ty: real): Fixture {
    f.(x := Within(f.x + tx, world.left + f.w / 2.0, world.right - f.w / 2.0),
       y := Within(f.y + ty, world.down + f.h / 2.0, world.up - f.h / 2.0),
       personalDelta := 0)
  }

  lemma MovedTo(world: Rect, f: Fixture, delta: nat, tx: real, ty: real)
    requires f.direction != Max && NotLarger(f, world)
    requires var d := PhaseForce(f.direction); tx == Travel(f, delta, d.column) && ty == Travel(f, delta, d.row)
    ensures Moved(world, f, delta) == Displaced(world, f, tx, ty)
  {
    MoveIsNearest(world, f, tx, ty);
  }

  predicate SameWay(a: real, b: real) { (a >= 0.0 && b >= 0.0) || (a <= 0.0 && b <= 0.0) }

  /** Displacements the same way add up, at the edges too. */
  lemma DisplacedTwice(world: Rect, f: Fixture, ax: real, ay: real, dx: real, dy: real)
    requires NotLarger(f, world) && Inside(world, Box(f)) && SameWay(ax, dx) && SameWay(ay, dy)
    ensures Displaced(world, Displaced(world, f, ax, ay), dx, dy) == Displaced(world, f, ax + dx, ay + dy)
  {
  }

  /** Movement does not depend on the tick: two steps are the one step of their
      whole time, at the edges of the world too. */
  lemma MoveSplits(world: Rect, f: Fixture, first: nat, second: nat)
    requires Moving(world, f)
    ensures Moved(world, Moved(world, f, first), second) == Moved(world, f, first + second)
  {
    var d, m := PhaseForce(f.direction), Moved(world, f, first);
    var ax, ay := Travel(f, first, d.column), Travel(f, first, d.row);
    var dx, dy := Travel(m, second, d.column), Travel(m, second, d.row);
    MovedTo(world, f, first, ax, ay);
    MovedTo(world, m, second, dx, dy);
    SplitTravel(f, m, first, second, d.column);
    SplitTravel(f, m, first, second, d.row);
    MovedTo(world, f, first + second, ax + dx, ay + dy);
    DisplacedTwice(world, f, ax, ay, dx, dy);
  }

  lemma SplitTravel(f: Fixture, m: Fixture, first: nat, second: nat, sign: int)
    requires f.force >= 0.0 && -1 <= sign <= 1 && m.force == f.force && m.personalDelta == 0
    ensures SameWay(Travel(f, first, sign), Travel(m, second, sign))
    ensures Travel(f, first, sign) + Travel(m, second, sign) == Travel(f, first + second, sign)
  {
    TravelSign(f, first, sign);
    TravelSign(m, second, sign);
    TravelAdds(f, m, first, second, sign);
  }

  lemma TravelAdds(f: Fixture, m: Fixture, first: nat, second: nat, sign: int)
    requires m.force == f.force && m.personalDelta == 0
    ensures Travel(f, first, sign) + Travel(m, second, sign) == Travel(f, first + second, sign)
  {
    var a, b := (first + f.personalDelta) as real / 1000.0, second as real / 1000.0;
    assert a + b == (first + second + f.personalDelta) as real / 1000.0;
    Distributes(f.force, a, b, sign as real);
  }

  lemma Distributes(force: real, a: real, b: real, sign: real)
    ensures force * a * sign + force * b * sign == force * (a + b) * sign
  {
    assert force * (a + b) == force * a + force * b;
  }

  lemma ShiftStaysInside(world: Rect, f: Fixture, mx: real, my: real)
    ensures Inside(world, Box(MovedBy(world, f, mx, my))) <==> NotLarger(f, world)
  {
  }

  // ----- Update

  const TransformCooltime := 1000

  datatype Event =
    | ChangeLocation(location: Location, phase: Direction)
    | ChangePhase(phase: Direction)
    | Nothing

  /** What Update makes of one fixture, and what it tells the callback. */
  function Updated(s: Sector, world: Rect, before: Fixture, now: int, delta: int): (Fixture, Event)
    requires Sized(s)
  {
    var f := Moved(world, before, delta);
    if f.observing || f.lastTransform + TransformCooltime > now then (f, Nothing)
    else
      match f.location
      case In =>
        var at := LocationOf(s, f);
        if at == In then (f, Nothing)
        else (f.(phase := PhaseOf(s, f), location := at), ChangeLocation(at, PhaseOf(s, f)))
      case Gray =>
        var at, phase := LocationOf(s, f), PhaseOf(s, f);
        if at != Gray then
          var phase := if at == In then Max else phase;
          (f.(location := at, phase := phase), ChangeLocation(at, phase))
        else if phase != f.phase then (f.(phase := phase), if phase != Max then ChangePhase(phase) else Nothing)
        else (f, Nothing)
      case Leave => (f, Nothing)
  }

  /** In exactly when phase Max; observing fixtures take no part. */
  predicate Matched(f: Fixture) { Solid(f) && (f.observing || (f.location == In <==> f.phase == Max)) }

  lemma MoveKeepsShape(world: Rect, f: Fixture, delta: int)
    ensures var m := Moved(world, f, delta);
            m == f.(x := m.x, y := m.y, personalDelta := m.personalDelta)
  {
  }

  lemma UpdateKeepsMatched(s: Sector, world: Rect, f: Fixture, now: int, delta: int)
    requires Sized(s) && ThinBand(s) && Matched(f)
    ensures Matched(Updated(s, world, f, now, delta).0)
    ensures var e := Updated(s, world, f, now, delta).1;
            && (e.ChangePhase? ==> e.phase != Max)
            && (e.ChangeLocation? ==> (e.location == In <==> e.phase == Max))
  {
    MoveKeepsShape(world, f, delta);
    var m := Moved(world, f, delta);
    if LocationOf(s, m) != In {
      PhaseLeavesInner(s, m);
    }
  }

  /** One update of a fixture.  It moves.  While it observes, has left or was
      transformed less than 1000 ms ago nothing else happens; otherwise its location
      becomes the one of its new position, and the callback hears of it if and only
      if that is a change, or it stays Gray and has come to another phase but Max. */
  lemma UpdateFollows(s: Sector, world: Rect, f: Fixture, now: int, delta: int)
    requires Sized(s)
    ensures var m, (g, e) := Moved(world, f, delta), Updated(s, world, f, now, delta);
            && g == f.(x := m.x, y := m.y, personalDelta := m.personalDelta, location := g.location, phase := g.phase)
            && if f.observing || f.location == Leave || now < f.lastTransform + 1000
               then g.location == f.location && g.phase == f.phase && e == Nothing
               else
                 && g.location == LocationOf(s, m)
                 && g.phase == (if f.location == In == g.location then f.phase
                                else if g.location == In then Max else PhaseOf(s, m))
                 && e == if g.location != f.location then ChangeLocation(g.location, g.phase)
                         else if g.location == Gray && g.phase != f.phase && g.phase != Max then ChangePhase(g.phase)
                         else Nothing
  {
    MoveKeepsShape(world, f, delta);
  }

  /** So after such an update the location tells what the fixture, where it now
      stands, touches. */
  lemma UpdateClassifies(s: Sector, world: Rect, f: Fixture, now: int, delta: int)
    requires Sized(s) && BandFits(s) && Solid(f)
    requires !f.observing && f.location != Leave && f.lastTransform + 1000 <= now
    ensures var g := Updated(s, world, f, now, delta).0;
            && (g.location == In <==> MeetsInner(s, g))
            && (g.location == Gray <==> MeetsSector(s, g) && !MeetsInner(s, g))
            && (g.location == Leave <==> !MeetsSector(s, g) && !MeetsInner(s, g))
  {
    var m, g := Moved(world, f, delta), Updated(s, world, f, now, delta).0;
    UpdateFollows(s, world, f, now, delta);
    LocationMeans(s, g);
    assert Box(g) == Box(m);
  }

  // ----- Whole runs

  datatype Op =
    | Update(now: int, delta: int)
    | Create(id: nat, x: real, y: real, w: real, h: real)
    | Copy(id: nat, origin: Fixture)
    | RemoveFixture(id: nat)
    | Steer(id: nat, x: real, y: real, direction: Direction, force: real, time: int, personalDelta: nat)

  /** CreateFixture at a position. */
  function Created(x: real, y: real, w: real, h: real): Fixture {
    Fixture(x, y, w, h, 500.0, Max, In, Max, false, 0, 0)
  }

  /** What Update makes of every fixture. */
  function Plan(s: Sector, world: Rect, fs: map<nat, Fixture>, now: int, delta: int): map<nat, (Fixture, Event)>
    requires Sized(s)
  {
    map id | id in fs :: Updated(s, world, fs[id], now, delta)
  }

  function AllUpdated(s: Sector, world: Rect, fs: map<nat, Fixture>, now: int, delta: int): map<nat, Fixture>
    requires Sized(s)
  {
    Outcome(Plan(s, world, fs, now, delta))
  }

  /** The fixtures not in todo have taken their step. */
  predicate Done(fs: map<nat, Fixture>, was: map<nat, Fixture>, plan: map<nat, (Fixture, Event)>, todo: set<nat>) {
    && fs.Keys == was.Keys == plan.Keys
    && forall id :: id in fs ==> fs[id] == if id in todo then was[id] else plan[id].0
  }

  /** The callback has heard of exactly the fixtures not in todo that have
      something to tell. */
  ghost predicate Told(events: map<nat, Event>, plan: map<nat, (Fixture, Event)>, todo: set<nat>) {
    && (forall id :: id in events ==> id in plan && id !in todo && events[id] == plan[id].1 != Nothing)
    && (forall id :: id in plan && id !in todo && plan[id].1 != Nothing ==> id in events)
  }

  lemma PlanAt(s: Sector, world: Rect, was: map<nat, Fixture>, now: int, delta: int, id: nat, f: Fixture, event: Event)
    requires Sized(s) && id in was && (f, event) == Updated(s, world, was[id], now, delta)
    ensures Plan(s, world, was, now, delta)[id] == (f, event)
  {
  }

  lemma NoneDone(fs: map<nat, Fixture>, plan: map<nat, (Fixture, Event)>)
    requires fs.Keys == plan.Keys
    ensures Done(fs, fs, plan, fs.Keys) && Told(map[], plan, fs.Keys)
  {
  }

  lemma AllDone(fs: map<nat, Fixture>, was: map<nat, Fixture>, plan: map<nat, (Fixture, Event)>)
    requires Done(fs, was, plan, {})
    ensures fs == Outcome(plan)
  {
  }

  function Outcome(plan: map<nat, (Fixture, Event)>): map<nat, Fixture> { map id | id in plan :: plan[id].0 }

  lemma TakeStep(fs: map<nat, Fixture>, was: map<nat, Fixture>, events: map<nat, Event>, plan: map<nat,
    (Fixture, Event)>,
                 todo: set<nat>, id: nat, f: Fixture, event: Event)
    requires Done(fs, was, plan, todo) && Told(events, plan, todo)
    requires id in todo && id in plan && plan[id] == (f, event)
    ensures Done(fs[id := f], was, plan, todo - {id})
    ensures Told(if event != Nothing then events[id := event] else events, plan, todo - {id})
  {
  }

  /** One operation of the owner of the sector.  A duplicate id throws and leaves
      the fixtures alone. */
  function Apply(s: Sector, world: Rect, fs: map<nat, Fixture>, op: Op): map<nat, Fixture>
    requires Sized(s)
  {
    match op
    case Update(now, delta) => AllUpdated(s, world, fs, now, delta)
    case Create(id, x, y, w, h) => if id in fs then fs else fs[id := Created(x, y, w, h)]
    case Copy(id, origin) => if id in fs then fs else fs[id := origin]
    case RemoveFixture(id) => fs - {id}
    case Steer(id, x, y, direction, force, time, personalDelta) =>
      if id !in fs then fs
      else fs[id := fs[id].(x := x, y := y, direction := direction, force := force, lastTransform := time,
        personalDelta := personalDelta)]
  }

  predicate Allowed(op: Op) {
    match op
    case Create(_, _, _, w, h) => w > 0.0 && h > 0.0
    case Copy(_, origin) => Matched(origin)
    case _ => true
  }

  predicate AllMatched(fs: map<nat, Fixture>) { forall id :: id in fs ==> Matched(fs[id]) }

  lemma StepKeepsMatched(s: Sector, world: Rect, fs: map<nat, Fixture>, op: Op)
    requires Sized(s) && ThinBand(s) && AllMatched(fs) && Allowed(op)
    ensures AllMatched(Apply(s, world, fs, op))
  {
    if op.Update? {
      forall id | id in fs
        ensures Matched(Updated(s, world, fs[id], op.now, op.delta).0)
      {
        UpdateKeepsMatched(s, world, fs[id], op.now, op.delta);
      }
    }
  }

  function Run(s: Sector, world: Rect, fs: map<nat, Fixture>, ops: seq<Op>): map<nat, Fixture>
    requires Sized(s)
    decreases |ops|
  {
    if ops == [] then fs else Run(s, world, Apply(s, world, fs, ops[0]), ops[1..])
  }

  /** In every run location is In exactly when the phase is Max. */
  lemma {:induction false} RunKeepsMatched(s: Sector, world: Rect, fs: map<nat, Fixture>, ops: seq<Op>)
    requires Sized(s) && ThinBand(s) && AllMatched(fs) && forall i :: 0 <= i < |ops| ==> Allowed(ops[i])
    ensures AllMatched(Run(s, world, fs, ops))
    decreases |ops|
  {
    if ops != [] {
      StepKeepsMatched(s, world, fs, ops[0]);
      RunKeepsMatched(s, world, Apply(s, world, fs, ops[0]), ops[1..]);
    }
  }

  // ----- The class

  class SectorSystem {
    const sector: Sector
    const world: Rect
    var fixtures: map<nat, Fixture>
    var nextId: nat

    constructor (s: Sector, w: Rect, firstId: nat)
      requires Sized(s)
      ensures sector == s && world == w && fixtures == map[] && nextId == firstId
    {
      sector, world, fixtures, nextId := s, w, map[], firstId;
    }

    method CreateFixture(id: nat, x: real, y: real, w: real, h: real) returns (duplicate: bool)
      requires Sized(sector)
      modifies this
      ensures duplicate == (id in old(fixtures)) && nextId == old(nextId)
      ensures fixtures == Apply(sector, world, old(fixtures), Create(id, x, y, w, h))
      ensures id in fixtures && fixtures - {id} == old(fixtures) - {id}
      ensures fixtures[id] == if duplicate then old(fixtures)[id]
                              else Fixture(x, y, w, h, 500.0, Max, In, Max, false, 0, 0)
    {
      if id in fixtures {
        return true;
      }
      fixtures := fixtures[id := Created(x, y, w, h)];
      duplicate := false;
    }

    /** CreateFixture with the next id of the sector. */
    method CreateNextFixture(x: real, y: real, w: real, h: real) returns (id: nat, duplicate: bool)
      requires Sized(sector)
      modifies this
      ensures id == old(nextId) && nextId == id + 1 && duplicate == (id in old(fixtures))
      ensures fixtures == Apply(sector, world, old(fixtures), Create(id, x, y, w, h))
    {
      id := nextId;
      nextId := nextId + 1;
      duplicate := CreateFixture(id, x, y, w, h);
    }

    method CopyFixture(id: nat, origin: Fixture) returns (duplicate: bool)
      requires Sized(sector)
      modifies this
      ensures duplicate == (id in old(fixtures)) && nextId == old(nextId)
      ensures fixtures == Apply(sector, world, old(fixtures), Copy(id, origin))
      ensures id in fixtures && fixtures - {id} == old(fixtures) - {id}
      ensures fixtures[id] == if duplicate then old(fixtures)[id] else origin
    {
      if id in fixtures {
        return true;
      }
      fixtures := fixtures[id := origin];
      duplicate := false;
    }

    method RemoveFixture(id: nat)
      requires Sized(sector)
      modifies this
      ensures fixtures == Apply(sector, world, old(fixtures), Op.RemoveFixture(id)) && nextId == old(nextId)
      ensures id !in fixtures && fixtures == old(fixtures) - {id}
    {
      fixtures := fixtures - {id};
    }

    /** Every fixture moves and takes its step, in any order; the callback hears
        of exactly the fixtures with something to tell. */
    method Update(now: int, delta: int) returns (events: map<nat, Event>)
      requires Sized(sector)
      modifies this
      ensures fixtures == Apply(sector, world, old(fixtures), Op.Update(now, delta)) && nextId == old(nextId)
      ensures Told(events, Plan(sector, world, old(fixtures), now, delta), {})
    {
      events := map[];
      var todo := fixtures.Keys;
      ghost var plan := Plan(sector, world, fixtures, now, delta);
      NoneDone(fixtures, plan);
      while todo != {}
        invariant todo <= fixtures.Keys && nextId == old(nextId)
        invariant Done(fixtures, old(fixtures), plan, todo) && Told(events, plan, todo)
        decreases |todo|
      {
        var id :| id in todo;
        var f, event := UpdateFixture(fixtures[id], now, delta);
        PlanAt(sector, world, old(fixtures), now, delta, id, f, event);
        TakeStep(fixtures, old(fixtures), events, plan, todo, id, f, event);
        fixtures := fixtures[id := f];
        if event != Nothing {
          events := events[id := event];
        }
        todo := todo - {id};
      }
      AllDone(fixtures, old(fixtures), plan);
    }

    /** The body of the loop. */
    method UpdateFixture(before: Fixture, now: int, delta: int) returns (f: Fixture, event: Event)
      requires Sized(sector)
      ensures (f, event) == Updated(sector, world, before, now, delta)
    {
      f, event := Moved(world, before, delta), Nothing;
      if f.observing || f.lastTransform + TransformCooltime > now || f.location == Leave {
        return;
      }
      var at, phase := LocationOf(sector, f), PhaseOf(sector, f);
      if at != f.location {
        if f.location == Gray && at == In {
          phase := Max;
        }
        event := ChangeLocation(at, phase);
        f := f.(location := at, phase := phase);
      } else if f.location == Gray && phase != f.phase {
        if phase != Max {
          event := ChangePhase(phase);
        }
        f := f.(phase := phase);
      }
    }
  }
}
