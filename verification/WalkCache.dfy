/**
 The walk cache of a creature: for the map positions around it, whether it could walk there.  The
 cache is shifted in place when the creature steps and patched when something else changes.
 */
module WalkCache {

  const MAP_WALK_WIDTH: nat := 23
  const MAP_WALK_HEIGHT: nat := 23
  const RADIUS_X: int := (MAP_WALK_WIDTH - 1) / 2
  const RADIUS_Y: int := (MAP_WALK_HEIGHT - 1) / 2

  datatype Position = Position(x: int, y: int, z: int)

  /** A tile, with the answer the creature gets when it asks whether it may walk there. */
  datatype Tile = Missing | Tile(walkable: bool)

  /** The map as the creature would find it by asking every tile directly. */
  type World = Position -> Tile

  predicate Walkable(t: Tile) { t.Tile? && t.walkable }

  predicate InWindow(dx: int, dy: int)
  {
    -RADIUS_X <= dx <= RADIUS_X && -RADIUS_Y <= dy <= RADIUS_Y
  }

  /** A change of the map that leaves every position outside `where` as walkable as before. */
  ghost predicate ChangedIn(before: World, after: World, where: set<Position>)
  {
    forall p: Position :: p !in where ==> Walkable(before(p)) == Walkable(after(p))
  }

  /** What a creature believes of every position: the answer that it got when it last asked there. */
  type Answers = Position -> bool

  /**
   What happens on the map.  `asks` is whether an item carries one of the flags that the handlers test.  What
   reaches no handler can change anything: conditions of the creature itself, a creature that disappears.
   */
  datatype Event =
    | ItemAdded(at: Position)
    | ItemUpdated(at: Position, asks: bool)
    | ItemRemoved(at: Position, asks: bool)
    | OtherAppeared(at: Position)
    | OtherMoved(to: Position, from: Position)
    | SelfAppeared
    | SelfMoved(to: Position, teleport: bool)
    | Unseen(changed: set<Position>)

  /** Whether the creature's own move makes it ask every tile again. */
  predicate Rebuilds(center: Position, e: Event)
  {
    e.SelfAppeared? || (e.SelfMoved? && (e.teleport || e.to.z != center.z))
  }

  function PositionAfter(center: Position, e: Event): Position
  {
    if e.SelfMoved? then e.to else center
  }

  /** Own steps that are no teleports go to a neighbour tile. */
  predicate Steps(center: Position, e: Event)
  {
    e.SelfMoved? && !Rebuilds(center, e) ==> -1 <= e.to.x - center.x <= 1 && -1 <= e.to.y - center.y <= 1
  }

  predicate Near(center: Position, p: Position)
  {
    InWindow(p.x - center.x, p.y - center.y)
  }

  /** A tile whose answer the cache has to have: in the window, on this floor, not the own tile. */
  predicate Watched(center: Position, p: Position)
  {
    p.z == center.z && p != center && Near(center, p)
  }

  // ---------------------------------------------------------------- what is asked

  /** Where the handler of an event asks, unless it asks everywhere; a step asks where it left, and what comes into the window. */
  predicate Asked(center: Position, e: Event, p: Position)
  {
    match e
    case ItemAdded(at) => p == at
    case ItemUpdated(at, asks) => asks && p == at
    case ItemRemoved(at, asks) => asks && p == at
    case OtherAppeared(at) => p == at
    case OtherMoved(to, from) => p == to || p == from
    case SelfAppeared => false
    case SelfMoved(_, _) => p == center || !Near(center, p)
    case Unseen(_) => false
  }

  /** The position that had the cell of `p` before. */
  function SameCell(from: Position, to: Position, p: Position): Position
  {
    Position(p.x - to.x + from.x, p.y - to.y + from.y, from.z)
  }

  /** Asked again everywhere: where there is no tile, the old answer of the cell stays. */
  function Rebuilt(from: Position, to: Position, a: Answers, w: World): Answers
  {
    p => if w(p).Tile? then Walkable(w(p)) else a(SameCell(from, to, p))
  }

  /** What the creature believes after an event. */
  function Next(center: Position, a: Answers, e: Event, w: World): Answers
  {
    if Rebuilds(center, e) then Rebuilt(center, PositionAfter(center, e), a, w)
    else p => if Asked(center, e, p) then Walkable(w(p)) else a(p)
  }

  /** A run: each event with the map after it. */
  type Course = seq<(Event, World)>

  function Finally(center: Position, run: Course): Position
    decreases |run|
  {
    if run == [] then center else Finally(PositionAfter(center, run[0].0), run[1..])
  }

  function Answered(center: Position, a: Answers, run: Course): Answers
    decreases |run|
  {
    if run == [] then a
    else Answered(PositionAfter(center, run[0].0), Next(center, a, run[0].0, run[0].1), run[1..])
  }

  ghost predicate StepsRun(center: Position, run: Course)
    decreases |run|
  {
    run == [] || (Steps(center, run[0].0) && StepsRun(PositionAfter(center, run[0].0), run[1..]))
  }

  ghost function LastWorld(before: World, run: Course): World
  {
    if run == [] then before else LastWorld(run[0].1, run[1..])
  }

  // ---------------------------------------------------------------- when the answers are right

  ghost predicate RightBut(center: Position, a: Answers, w: World, stale: set<Position>)
  {
    forall p :: Watched(center, p) && p !in stale ==> a(p) == Walkable(w(p))
  }

  /** What is believed of every watched position is what asking now would give. */
  ghost predicate Right(center: Position, a: Answers, w: World)
  {
    forall p :: Watched(center, p) ==> a(p) == Walkable(w(p))
  }

  /** Whether an event leaves right answers right. */
  ghost predicate Seen(center: Position, a: Answers, before: World, e: Event, w: World)
  {
    var to := PositionAfter(center, e);
    if Rebuilds(center, e) then
      forall p :: Watched(to, p) && w(p).Missing? ==> !a(SameCell(center, to, p))
    else
      forall p :: Watched(to, p) && !Asked(center, e, p) ==> Walkable(before(p)) == Walkable(w(p))
  }

  /**
   From right answers, an event leads to right ones exactly when nothing has changed where it does not ask, and
   no missing tile takes over a yes.
   */
  lemma EventExactly(center: Position, a: Answers, before: World, e: Event, w: World)
    requires Right(center, a, before)
    ensures Right(PositionAfter(center, e), Next(center, a, e, w), w) <==> Seen(center, a, before, e, w)
  {
    var to, next := PositionAfter(center, e), Next(center, a, e, w);
    if Rebuilds(center, e) {
      assert forall p :: next(p) == if w(p).Tile? then Walkable(w(p)) else a(SameCell(center, to, p));
    } else {
      assert forall p :: next(p) == if Asked(center, e, p) then Walkable(w(p)) else a(p);
      assert forall p :: Watched(to, p) && !Asked(center, e, p) ==> Watched(center, p);
    }
  }

  ghost predicate SeenRun(center: Position, a: Answers, before: World, run: Course)
    decreases |run|
  {
    run == [] ||
    (Seen(center, a, before, run[0].0, run[0].1)
     && SeenRun(PositionAfter(center, run[0].0), Next(center, a, run[0].0, run[0].1), run[0].1, run[1..]))
  }

  /** When no event of a run changes anything unasked, all answers are right at the end. */
  lemma {:induction false} SeenIsRight(center: Position, a: Answers, before: World, run: Course)
    requires Right(center, a, before) && SeenRun(center, a, before, run)
    ensures Right(Finally(center, run), Answered(center, a, run), LastWorld(before, run))
    decreases |run|
  {
    hide Right, Seen, Next;
    if run != [] {
      EventExactly(center, a, before, run[0].0, run[0].1);
      SeenIsRight(PositionAfter(center, run[0].0), Next(center, a, run[0].0, run[0].1), run[0].1, run[1..]);
    }
  }

  /** Where an event can change the map, unless it asks everywhere. */
  function Touched(center: Position, e: Event): set<Position>
  {
    match e
    case ItemAdded(at) => {at}
    case ItemUpdated(at, _) => {at}
    case ItemRemoved(at, _) => {at}
    case OtherAppeared(at) => {at}
    case OtherMoved(to, from) => {to, from}
    case SelfAppeared => {}
    case SelfMoved(to, _) => {to, center}
    case Unseen(changed) => changed
  }

  /** Events change nothing but what they touch. */
  ghost predicate Confined(center: Position, before: World, run: Course)
    decreases |run|
  {
    run == [] ||
    ((Rebuilds(center, run[0].0) || ChangedIn(before, run[0].1, Touched(center, run[0].0)))
     && Confined(PositionAfter(center, run[0].0), run[0].1, run[1..]))
  }

  /** An item that does not make the handlers look. */
  predicate Silent(e: Event)
  {
    (e.ItemUpdated? || e.ItemRemoved?) && !e.asks
  }

  /**
   A run that the handlers can follow, whatever they ask: every event changes nothing but what it touches, none is
   unseen, an item that makes nobody look leaves its tile as walkable as it was, and wherever the creature looks
   all around, there are tiles.
   */
  ghost predicate Followed(center: Position, before: World, run: Course)
    decreases |run|
  {
    run == [] ||
    (var (e, w) := run[0]; var to := PositionAfter(center, e);
     && !e.Unseen?
     && (Rebuilds(center, e) || ChangedIn(before, w, Touched(center, e)))
     && (Rebuilds(center, e) ==> forall p: Position :: p.z == to.z && Near(to, p) ==> w(p).Tile?)
     && (Silent(e) ==> Walkable(before(e.at)) == Walkable(w(e.at)))
     && Followed(to, w, run[1..]))
  }

  /** In such a run no event changes anything unasked. */
  lemma {:induction false} FollowedIsSeen(center: Position, a: Answers, before: World, run: Course)
    requires Followed(center, before, run)
    ensures SeenRun(center, a, before, run)
    decreases |run|
  {
    if run != [] {
      hide Near, Next;
      FollowedIsSeen(PositionAfter(center, run[0].0), Next(center, a, run[0].0, run[0].1), run[0].1, run[1..]);
    }
  }

  function Offset(center: Position, dx: int, dy: int): Position
  {
    Position(center.x + dx, center.y + dy, center.z)
  }

  /** The positions of the window without a tile. */
  ghost function Gaps(center: Position, w: World): set<Position>
  {
    set dx, dy | -RADIUS_X <= dx <= RADIUS_X && -RADIUS_Y <= dy <= RADIUS_Y && w(Offset(center, dx, dy)).Missing?
      :: Offset(center, dx, dy)
  }

  /** What may have changed since it was last asked: what is touched comes in, what is asked goes out. */
  ghost function StaleAfter(center: Position, stale: set<Position>, e: Event, w: World): set<Position>
  {
    if Rebuilds(center, e) then Gaps(PositionAfter(center, e), w)
    else set p | p in stale + Touched(center, e) && !Asked(center, e, p)
  }

  ghost function StaleThen(center: Position, stale: set<Position>, run: Course): set<Position>
    decreases |run|
  {
    if run == [] then stale
    else StaleThen(PositionAfter(center, run[0].0), StaleAfter(center, stale, run[0].0, run[0].1), run[1..])
  }

  lemma StaleStep(center: Position, a: Answers, before: World, stale: set<Position>, e: Event, w: World)
    requires RightBut(center, a, before, stale) && (Rebuilds(center, e) || ChangedIn(before, w, Touched(center, e)))
    ensures RightBut(PositionAfter(center, e), Next(center, a, e, w), w, StaleAfter(center, stale, e, w))
  {
    var to, next, stale' := PositionAfter(center, e), Next(center, a, e, w), StaleAfter(center, stale, e, w);
    forall p | Watched(to, p) && p !in stale' ensures next(p) == Walkable(w(p)) {
      if Rebuilds(center, e) {
        var dx, dy := p.x - to.x, p.y - to.y;
        assert p == Offset(to, dx, dy);
        assert w(p).Tile?;
      } else if !Asked(center, e, p) {
        assert p !in stale + Touched(center, e);
        assert Watched(center, p);
      }
    }
  }

  /**
   After any run all watched positions outside the stale ones have the right answer, and all have it exactly
   when every stale one that is watched is as walkable as when it was last asked.
   */
  lemma {:induction false} StaleExactly(center: Position, a: Answers, before: World, stale: set<Position>, run: Course)
    requires RightBut(center, a, before, stale) && Confined(center, before, run)
    ensures var (c, b, w, s) := (Finally(center, run), Answered(center, a, run), LastWorld(before, run),
                                 StaleThen(center, stale, run));
            && RightBut(c, b, w, s)
            && (Right(c, b, w) <==> forall p :: p in s && Watched(c, p) ==> b(p) == Walkable(w(p)))
    decreases |run|
  {
    if run != [] {
      hide RightBut, Right, Next, StaleAfter;
      StaleStep(center, a, before, stale, run[0].0, run[0].1);
      StaleExactly(PositionAfter(center, run[0].0), Next(center, a, run[0].0, run[0].1), run[0].1,
                   StaleAfter(center, stale, run[0].0, run[0].1), run[1..]);
    }
  }

  /** No event of the run asks at `p`. */
  ghost predicate Unasked(center: Position, run: Course, p: Position)
    decreases |run|
  {
    run == [] ||
    (!Rebuilds(center, run[0].0) && !Asked(center, run[0].0, p) && Unasked(PositionAfter(center, run[0].0), run[1..], p))
  }

  lemma {:induction false} UnaskedStays(center: Position, a: Answers, run: Course, p: Position)
    requires Unasked(center, run, p)
    ensures Answered(center, a, run)(p) == a(p)
    decreases |run|
  {
    if run != [] {
      UnaskedStays(PositionAfter(center, run[0].0), Next(center, a, run[0].0, run[0].1), run[1..], p);
    }
  }

  lemma {:induction false} InTwoParts(center: Position, a: Answers, one: Course, two: Course)
    ensures Finally(center, one + two) == Finally(Finally(center, one), two)
    ensures Answered(center, a, one + two) == Answered(Finally(center, one), Answered(center, a, one), two)
    decreases |one|
  {
    if one == [] {
      assert one + two == two;
    } else {
      assert (one + two)[1..] == one[1..] + two;
      InTwoParts(PositionAfter(center, one[0].0), Next(center, a, one[0].0, one[0].1), one[1..], two);
    }
  }

  /** The answer for a position is the one that it gave when it was last asked. */
  lemma LastAnswer(center: Position, a: Answers, one: Course, e: Event, w: World, two: Course, p: Position)
    requires var c := Finally(center, one);
             && (if Rebuilds(c, e) then w(p).Tile? else Asked(c, e, p))
             && Unasked(PositionAfter(c, e), two, p)
    ensures Answered(center, a, one + [(e, w)] + two)(p) == Walkable(w(p))
  {
    hide Answered, Finally, Unasked;
    var c, b := Finally(center, one), Answered(center, a, one);
    assert one + [(e, w)] + two == one + ([(e, w)] + two);
    InTwoParts(center, a, one, [(e, w)] + two);
    FirstEvent(c, b, e, w, two);
    UnaskedStays(PositionAfter(c, e), Next(c, b, e, w), two, p);
  }

  lemma FirstEvent(center: Position, a: Answers, e: Event, w: World, rest: Course)
    ensures Answered(center, a, [(e, w)] + rest) == Answered(PositionAfter(center, e), Next(center, a, e, w), rest)
  {
    assert ([(e, w)] + rest)[1..] == rest;
  }

  class Creature {
    var pos: Position
    var isMapLoaded: bool
    const useCacheMap: bool
    const cache: array2<bool>

    ghost predicate Valid()
    {
      cache.Length0 == MAP_WALK_HEIGHT && cache.Length1 == MAP_WALK_WIDTH
    }

    /** The map position of a cell when columns are counted around `x0`. */
    ghost function PositionOf(x0: int, row: int, column: int): Position
      reads this`pos
    {
      Position(x0 + column - RADIUS_X, pos.y + row - RADIUS_Y, pos.z)
    }

    /** Cell [row, column] tells the truth about the map position it stands for. */
    ghost predicate CellAgrees(w: World, x0: int, row: int, column: int)
      requires Valid() && 0 <= row < MAP_WALK_HEIGHT && 0 <= column < MAP_WALK_WIDTH
      reads this`pos, cache
    {
      cache[row, column] == Walkable(w(PositionOf(x0, row, column)))
    }

    ghost predicate OwnCell(row: int, column: int)
    {
      row == RADIUS_Y && column == RADIUS_X
    }

    /** Every cell but the middle one holds what is believed of its position, counted around `center`. */
    ghost predicate HoldsAround(center: Position, a: Answers)
      requires Valid()
      reads cache
    {
      forall i, j :: 0 <= i < MAP_WALK_HEIGHT && 0 <= j < MAP_WALK_WIDTH && !OwnCell(i, j) ==>
        cache[i, j] == a(Position(center.x + j - RADIUS_X, center.y + i - RADIUS_Y, center.z))
    }

    ghost predicate Holds(a: Answers)
      requires Valid()
      reads this`pos, cache
    {
      HoldsAround(pos, a)
    }

    /** The cache is what a direct query of every tile of the window would give, the own tile apart. */
    ghost predicate Agrees(w: World)
      requires Valid()
      reads this`pos, cache
    {
      Holds(p => Walkable(w(p)))
    }

    ghost predicate Watches(at: Position)
      reads this`pos
    {
      Watched(pos, at)
    }

    /** The cell that stands for a watched position. */
    lemma CellOf(at: Position)
      requires Valid() && Watches(at)
      ensures var i, j := RADIUS_Y + at.y - pos.y, RADIUS_X + at.x - pos.x;
              0 <= i < MAP_WALK_HEIGHT && 0 <= j < MAP_WALK_WIDTH && !OwnCell(i, j) && PositionOf(pos.x, i, j) == at
    {
    }

    /** Holding right answers is agreeing with the map. */
    lemma HeldAgrees(a: Answers, w: World)
      requires Valid() && Holds(a)
      ensures Agrees(w) <==> Right(pos, a, w)
    {
      if Agrees(w) {
        forall p | Watched(pos, p) ensures a(p) == Walkable(w(p)) {
          CellOf(p);
          var i, j := RADIUS_Y + p.y - pos.y, RADIUS_X + p.x - pos.x;
          assert p == Position(pos.x + j - RADIUS_X, pos.y + i - RADIUS_Y, pos.z);
          assert cache[i, j] == a(p);
        }
      }
      if Right(pos, a, w) {
        forall i, j | 0 <= i < MAP_WALK_HEIGHT && 0 <= j < MAP_WALK_WIDTH && !OwnCell(i, j)
          ensures cache[i, j] == Walkable(w(Position(pos.x + j - RADIUS_X, pos.y + i - RADIUS_Y, pos.z)))
        {
          assert Watched(pos, Position(pos.x + j - RADIUS_X, pos.y + i - RADIUS_Y, pos.z));
        }
      }
    }

    constructor (pos: Position, useCacheMap: bool)
      ensures Valid() && !isMapLoaded && this.pos == pos && this.useCacheMap == useCacheMap && fresh(cache)
      ensures forall i, j :: 0 <= i < MAP_WALK_HEIGHT && 0 <= j < MAP_WALK_WIDTH ==> !cache[i, j]
    {
      this.pos, this.useCacheMap, isMapLoaded := pos, useCacheMap, false;
      cache := new bool[MAP_WALK_HEIGHT, MAP_WALK_WIDTH]((i, j) => false);
    }

    // -------------------------------------------------------------- single cells

    /** Asks one tile and stores the answer at an offset from the creature, if the window reaches it. */
    method UpdateOffset(tile: Tile, dx: int, dy: int)
      requires Valid()
      modifies cache
      ensures forall i, j :: 0 <= i < MAP_WALK_HEIGHT && 0 <= j < MAP_WALK_WIDTH ==>
        cache[i, j] == if i == RADIUS_Y + dy && j == RADIUS_X + dx then Walkable(tile) else old(cache[i, j])
    {
      if InWindow(dx, dy) {
        cache[RADIUS_Y + dy, RADIUS_X + dx] := Walkable(tile);
      }
    }

    /** The same for a map position. */
    method UpdateAt(tile: Tile, at: Position)
      requires Valid()
      modifies cache
      ensures forall i, j :: 0 <= i < MAP_WALK_HEIGHT && 0 <= j < MAP_WALK_WIDTH ==>
        cache[i, j] == if at == PositionOf(pos.x, i, j) then Walkable(tile) else old(cache[i, j])
    {
      if at.z == pos.z {
        UpdateOffset(tile, at.x - pos.x, at.y - pos.y);
      }
    }

    /** The map has a tile where the cell points to. */
    ghost predicate Known(w: World, row: int, column: int)
      reads this`pos
    {
      w(PositionOf(pos.x, row, column)).Tile?
    }

    /**
     Asks every tile of the window; where there is no tile the old answer stays.  So the cache agrees
     with the map afterwards exactly when no such answer was yes.
     */
    method UpdateMapCache(w: World)
      requires Valid()
      modifies cache
      ensures forall i, j :: 0 <= i < MAP_WALK_HEIGHT && 0 <= j < MAP_WALK_WIDTH ==>
        if Known(w, i, j) then CellAgrees(w, pos.x, i, j) else cache[i, j] == old(cache[i, j])
      ensures Agrees(w) <==> forall i, j :: 0 <= i < MAP_WALK_HEIGHT && 0 <= j < MAP_WALK_WIDTH && !OwnCell(i, j) ==>
        Known(w, i, j) || !old(cache[i, j])
    {
      var y := -RADIUS_Y;
      while y <= RADIUS_Y
        invariant -RADIUS_Y <= y <= RADIUS_Y + 1
        invariant forall i, j :: 0 <= i < MAP_WALK_HEIGHT && 0 <= j < MAP_WALK_WIDTH ==>
          if i < y + RADIUS_Y && Known(w, i, j) then CellAgrees(w, pos.x, i, j) else cache[i, j] == old(cache[i, j])
      {
        var x := -RADIUS_X;
        while x <= RADIUS_X
          invariant -RADIUS_X <= x <= RADIUS_X + 1
          invariant forall i, j :: 0 <= i < MAP_WALK_HEIGHT && 0 <= j < MAP_WALK_WIDTH ==>
            if (i < y + RADIUS_Y || (i == y + RADIUS_Y && j < x + RADIUS_X)) && Known(w, i, j)
            then CellAgrees(w, pos.x, i, j) else cache[i, j] == old(cache[i, j])
        {
          var dest := Position(pos.x + x, pos.y + y, pos.z);
          if w(dest).Tile? {
            UpdateAt(w(dest), dest);
          }
          x := x + 1;
        }
        y := y + 1;
      }
    }

    // -------------------------------------------------------------- own steps

    /** memcpy of row `from` over row `to`. */
    method CopyRow(from: int, to: int)
      requires Valid() && 0 <= from < MAP_WALK_HEIGHT && 0 <= to < MAP_WALK_HEIGHT
      modifies cache
      ensures forall i, j :: 0 <= i < MAP_WALK_HEIGHT && 0 <= j < MAP_WALK_WIDTH ==>
        cache[i, j] == if i == to then old(cache[from, j]) else old(cache[i, j])
    {
      forall j | 0 <= j < MAP_WALK_WIDTH {
        cache[to, j] := cache[from, j];
      }
    }

    /** North step: every row moves down by one. */
    method ShiftSouth()
      requires Valid()
      modifies cache
      ensures forall i, j :: 0 <= i < MAP_WALK_HEIGHT && 0 <= j < MAP_WALK_WIDTH ==>
        cache[i, j] == if i > 0 then old(cache[i - 1, j]) else old(cache[i, j])
    {
      var y := MAP_WALK_HEIGHT - 1 - 1;
      while y >= 0
        invariant -1 <= y <= MAP_WALK_HEIGHT - 2
        invariant forall i, j :: 0 <= i < MAP_WALK_HEIGHT && 0 <= j < MAP_WALK_WIDTH ==>
          cache[i, j] == if i > y + 1 then old(cache[i - 1, j]) else old(cache[i, j])
      {
        CopyRow(y, y + 1);
        y := y - 1;
      }
    }

    /** South step: every row moves up by one. */
    method ShiftNorth()
      requires Valid()
      modifies cache
      ensures forall i, j :: 0 <= i < MAP_WALK_HEIGHT && 0 <= j < MAP_WALK_WIDTH ==>
        cache[i, j] == if i < MAP_WALK_HEIGHT - 1 then old(cache[i + 1, j]) else old(cache[i, j])
    {
      var y := 0;
      while y <= MAP_WALK_HEIGHT - 1 - 1
        invariant 0 <= y <= MAP_WALK_HEIGHT - 1
        invariant forall i, j :: 0 <= i < MAP_WALK_HEIGHT && 0 <= j < MAP_WALK_WIDTH ==>
          cache[i, j] == if i < y then old(cache[i + 1, j]) else old(cache[i, j])
      {
        CopyRow(y + 1, y);
        y := y + 1;
      }
    }

    /** East step: the columns of the given rows move left by one. */
    method ShiftWest(startY: int, endY: int)
      requires Valid() && 0 <= startY <= endY + 1 <= MAP_WALK_HEIGHT
      modifies cache
      ensures forall i, j :: 0 <= i < MAP_WALK_HEIGHT && 0 <= j < MAP_WALK_WIDTH ==>
        cache[i, j] == if startY <= i <= endY && j < MAP_WALK_WIDTH - 1 then old(cache[i, j + 1]) else old(cache[i, j])
    {
      var y := startY;
      while y <= endY
        invariant startY <= y <= endY + 1
        invariant forall i, j :: 0 <= i < MAP_WALK_HEIGHT && 0 <= j < MAP_WALK_WIDTH ==>
          cache[i, j] == if startY <= i < y && j < MAP_WALK_WIDTH - 1 then old(cache[i, j + 1]) else old(cache[i, j])
      {
        var x := 0;
        while x <= MAP_WALK_WIDTH - 1 - 1
          invariant 0 <= x <= MAP_WALK_WIDTH - 1
          invariant forall i, j :: 0 <= i < MAP_WALK_HEIGHT && 0 <= j < MAP_WALK_WIDTH ==>
            cache[i, j] == if startY <= i && ((i < y && j < MAP_WALK_WIDTH - 1) || (i == y && j < x))
                           then old(cache[i, j + 1]) else old(cache[i, j])
        {
          cache[y, x] := cache[y, x + 1];
          x := x + 1;
        }
        y := y + 1;
      }
    }

    /** West step: the columns of the given rows move right by one. */
    method ShiftEast(startY: int, endY: int)
      requires Valid() && 0 <= startY <= endY + 1 <= MAP_WALK_HEIGHT
      modifies cache
      ensures forall i, j :: 0 <= i < MAP_WALK_HEIGHT && 0 <= j < MAP_WALK_WIDTH ==>
        cache[i, j] == if startY <= i <= endY && j > 0 then old(cache[i, j - 1]) else old(cache[i, j])
    {
      var y := startY;
      while y <= endY
        invariant startY <= y <= endY + 1
        invariant forall i, j :: 0 <= i < MAP_WALK_HEIGHT && 0 <= j < MAP_WALK_WIDTH ==>
          cache[i, j] == if startY <= i < y && j > 0 then old(cache[i, j - 1]) else old(cache[i, j])
      {
        var x := MAP_WALK_WIDTH - 1 - 1;
        while x >= 0
          invariant -1 <= x <= MAP_WALK_WIDTH - 2
          invariant forall i, j :: 0 <= i < MAP_WALK_HEIGHT && 0 <= j < MAP_WALK_WIDTH ==>
            cache[i, j] == if startY <= i && ((i < y && j > 0) || (i == y && j > x + 1))
                           then old(cache[i, j - 1]) else old(cache[i, j])
        {
          cache[y, x + 1] := cache[y, x];
          x := x - 1;
        }
        y := y + 1;
      }
    }

    /** Asks the tiles of the row at offset `dy`. */
    method UpdateRow(w: World, dy: int)
      requires Valid() && -RADIUS_Y <= dy <= RADIUS_Y
      modifies cache
      ensures forall i, j :: 0 <= i < MAP_WALK_HEIGHT && 0 <= j < MAP_WALK_WIDTH ==>
        if i == RADIUS_Y + dy then CellAgrees(w, pos.x, i, j) else cache[i, j] == old(cache[i, j])
    {
      var x := -RADIUS_X;
      while x <= RADIUS_X
        invariant -RADIUS_X <= x <= RADIUS_X + 1
        invariant forall i, j :: 0 <= i < MAP_WALK_HEIGHT && 0 <= j < MAP_WALK_WIDTH ==>
          if i == RADIUS_Y + dy && j < x + RADIUS_X then CellAgrees(w, pos.x, i, j) else cache[i, j] == old(cache[i, j])
      {
        UpdateOffset(w(Position(pos.x + x, pos.y + dy, pos.z)), x, dy);
        x := x + 1;
      }
    }

    /** Asks the tiles of the column at offset `dx`. */
    method UpdateColumn(w: World, dx: int)
      requires Valid() && -RADIUS_X <= dx <= RADIUS_X
      modifies cache
      ensures forall i, j :: 0 <= i < MAP_WALK_HEIGHT && 0 <= j < MAP_WALK_WIDTH ==>
        if j == RADIUS_X + dx then CellAgrees(w, pos.x, i, j) else cache[i, j] == old(cache[i, j])
    {
      var y := -RADIUS_Y;
      while y <= RADIUS_Y
        invariant -RADIUS_Y <= y <= RADIUS_Y + 1
        invariant forall i, j :: 0 <= i < MAP_WALK_HEIGHT && 0 <= j < MAP_WALK_WIDTH ==>
          if j == RADIUS_X + dx && i < y + RADIUS_Y then CellAgrees(w, pos.x, i, j) else cache[i, j] == old(cache[i, j])
      {
        UpdateOffset(w(Position(pos.x + dx, pos.y + y, pos.z)), dx, y);
        y := y + 1;
      }
    }

    /** The rows that the north/south half of a step leaves counted around the old x. */
    static function FirstStale(oldY: int, newY: int): int { if oldY > newY then oldY - newY else 0 }

    static function LastStale(oldY: int, newY: int): int
    {
      MAP_WALK_HEIGHT - 1 + (if oldY < newY then oldY - newY else 0)
    }

    /** What comes into the window with a step is to be as the map says. */
    ghost predicate Incoming(w: World, oldPos: Position, t: Answers)
      reads this`pos
    {
      forall p: Position :: p.z == pos.z && !Near(oldPos, p) ==> t(p) == Walkable(w(p))
    }

    /** A cell is right for columns counted around `x0`, or stands for one end of the step. */
    ghost predicate CellRight(t: Answers, oldPos: Position, x0: int, row: int, column: int)
      requires Valid() && 0 <= row < MAP_WALK_HEIGHT && 0 <= column < MAP_WALK_WIDTH
      reads this`pos, cache
    {
      var at := PositionOf(x0, row, column);
      at == pos || at == oldPos || cache[row, column] == t(at)
    }

    /** Before the step: right around the old position. */
    ghost predicate WasRight(t: Answers, oldPos: Position, row: int, column: int)
      requires Valid() && 0 <= row < MAP_WALK_HEIGHT && 0 <= column < MAP_WALK_WIDTH
      reads this`pos, cache
    {
      var at := Position(oldPos.x + column - RADIUS_X, oldPos.y + row - RADIUS_Y, pos.z);
      at == pos || at == oldPos || cache[row, column] == t(at)
    }

    /** In between: rows `from` to `to` are right for the old x, the others for the new one. */
    ghost predicate HalfRight(t: Answers, oldPos: Position, from: int, to: int, row: int, column: int)
      requires Valid() && 0 <= row < MAP_WALK_HEIGHT && 0 <= column < MAP_WALK_WIDTH
      reads this`pos, cache
    {
      CellRight(t, oldPos, if from <= row <= to then oldPos.x else pos.x, row, column)
    }

    method StepNorth(w: World, oldPos: Position, ghost t: Answers)
      requires Valid() && Incoming(w, oldPos, t) && pos.y == oldPos.y - 1
      requires forall i, j :: 0 <= i < MAP_WALK_HEIGHT && 0 <= j < MAP_WALK_WIDTH ==> WasRight(t, oldPos, i, j)
      modifies cache
      ensures forall i, j :: 0 <= i < MAP_WALK_HEIGHT && 0 <= j < MAP_WALK_WIDTH ==>
        HalfRight(t, oldPos, FirstStale(oldPos.y, pos.y), LastStale(oldPos.y, pos.y), i, j)
    {
      ShiftSouth();
      UpdateRow(w, -RADIUS_Y);
      forall i, j | 0 <= i < MAP_WALK_HEIGHT && 0 <= j < MAP_WALK_WIDTH
        ensures HalfRight(t, oldPos, FirstStale(oldPos.y, pos.y), LastStale(oldPos.y, pos.y), i, j)
      {
        assert i > 0 ==> old(WasRight(t, oldPos, i - 1, j));
      }
    }

    method StepSouth(w: World, oldPos: Position, ghost t: Answers)
      requires Valid() && Incoming(w, oldPos, t) && pos.y == oldPos.y + 1
      requires forall i, j :: 0 <= i < MAP_WALK_HEIGHT && 0 <= j < MAP_WALK_WIDTH ==> WasRight(t, oldPos, i, j)
      modifies cache
      ensures forall i, j :: 0 <= i < MAP_WALK_HEIGHT && 0 <= j < MAP_WALK_WIDTH ==>
        HalfRight(t, oldPos, FirstStale(oldPos.y, pos.y), LastStale(oldPos.y, pos.y), i, j)
    {
      ShiftNorth();
      UpdateRow(w, RADIUS_Y);
      forall i, j | 0 <= i < MAP_WALK_HEIGHT && 0 <= j < MAP_WALK_WIDTH
        ensures HalfRight(t, oldPos, FirstStale(oldPos.y, pos.y), LastStale(oldPos.y, pos.y), i, j)
      {
        assert i < MAP_WALK_HEIGHT - 1 ==> old(WasRight(t, oldPos, i + 1, j));
      }
    }

    /** The north/south half of a step: afterwards only the columns are still those of the old position. */
    method StepRows(w: World, oldPos: Position, ghost t: Answers)
      requires Valid() && Incoming(w, oldPos, t) && -1 <= pos.y - oldPos.y <= 1
      requires forall i, j :: 0 <= i < MAP_WALK_HEIGHT && 0 <= j < MAP_WALK_WIDTH ==> WasRight(t, oldPos, i, j)
      modifies cache
      ensures forall i, j :: 0 <= i < MAP_WALK_HEIGHT && 0 <= j < MAP_WALK_WIDTH ==>
        HalfRight(t, oldPos, FirstStale(oldPos.y, pos.y), LastStale(oldPos.y, pos.y), i, j)
    {
      if oldPos.y > pos.y {
        StepNorth(w, oldPos, t);
      } else if oldPos.y < pos.y {
        StepSouth(w, oldPos, t);
      } else {
        forall i, j | 0 <= i < MAP_WALK_HEIGHT && 0 <= j < MAP_WALK_WIDTH
          ensures HalfRight(t, oldPos, FirstStale(oldPos.y, pos.y), LastStale(oldPos.y, pos.y), i, j)
        {
          assert WasRight(t, oldPos, i, j);
        }
      }
    }

    method StepEast(w: World, oldPos: Position, ghost t: Answers, startY: int, endY: int)
      requires Valid() && Incoming(w, oldPos, t) && pos.x == oldPos.x + 1 && 0 <= startY <= endY + 1 <= MAP_WALK_HEIGHT
      requires forall i, j :: 0 <= i < MAP_WALK_HEIGHT && 0 <= j < MAP_WALK_WIDTH ==>
        HalfRight(t, oldPos, startY, endY, i, j)
      modifies cache
      ensures forall i, j :: 0 <= i < MAP_WALK_HEIGHT && 0 <= j < MAP_WALK_WIDTH ==> CellRight(t, oldPos, pos.x, i, j)
    {
      ShiftWest(startY, endY);
      UpdateColumn(w, RADIUS_X);
      forall i, j | 0 <= i < MAP_WALK_HEIGHT && j == MAP_WALK_WIDTH - 1 ensures CellRight(t, oldPos, pos.x, i, j) {
        assert !Near(oldPos, PositionOf(pos.x, i, j));
      }
      forall i, j | 0 <= i < MAP_WALK_HEIGHT && 0 <= j < MAP_WALK_WIDTH - 1
        ensures CellRight(t, oldPos, pos.x, i, j)
      {
        hide Incoming, Near;
        assert old(HalfRight(t, oldPos, startY, endY, i, j)) && old(HalfRight(t, oldPos, startY, endY, i, j + 1));
      }
    }

    method StepWest(w: World, oldPos: Position, ghost t: Answers, startY: int, endY: int)
      requires Valid() && Incoming(w, oldPos, t) && pos.x == oldPos.x - 1 && 0 <= startY <= endY + 1 <= MAP_WALK_HEIGHT
      requires forall i, j :: 0 <= i < MAP_WALK_HEIGHT && 0 <= j < MAP_WALK_WIDTH ==>
        HalfRight(t, oldPos, startY, endY, i, j)
      modifies cache
      ensures forall i, j :: 0 <= i < MAP_WALK_HEIGHT && 0 <= j < MAP_WALK_WIDTH ==> CellRight(t, oldPos, pos.x, i, j)
    {
      ShiftEast(startY, endY);
      UpdateColumn(w, -RADIUS_X);
      forall i, j | 0 <= i < MAP_WALK_HEIGHT && j == 0 ensures CellRight(t, oldPos, pos.x, i, j) {
        assert !Near(oldPos, PositionOf(pos.x, i, j));
      }
      forall i, j | 0 <= i < MAP_WALK_HEIGHT && 0 < j < MAP_WALK_WIDTH
        ensures CellRight(t, oldPos, pos.x, i, j)
      {
        hide Incoming, Near;
        assert old(HalfRight(t, oldPos, startY, endY, i, j)) && old(HalfRight(t, oldPos, startY, endY, i, j - 1));
      }
    }

    /** The east/west half, on the rows that are not fresh already. */
    method StepColumns(w: World, oldPos: Position, ghost t: Answers)
      requires Valid() && Incoming(w, oldPos, t) && -1 <= pos.x - oldPos.x <= 1 && -1 <= pos.y - oldPos.y <= 1
      requires forall i, j :: 0 <= i < MAP_WALK_HEIGHT && 0 <= j < MAP_WALK_WIDTH ==>
        HalfRight(t, oldPos, FirstStale(oldPos.y, pos.y), LastStale(oldPos.y, pos.y), i, j)
      modifies cache
      ensures forall i, j :: 0 <= i < MAP_WALK_HEIGHT && 0 <= j < MAP_WALK_WIDTH ==> CellRight(t, oldPos, pos.x, i, j)
    {
      var startY, endY, dy := 0, MAP_WALK_HEIGHT - 1, oldPos.y - pos.y;
      if dy < 0 {
        endY := endY + dy;
      } else if dy > 0 {
        startY := startY + dy;
      }
      assert startY == FirstStale(oldPos.y, pos.y) && endY == LastStale(oldPos.y, pos.y);
      if oldPos.x < pos.x {
        StepEast(w, oldPos, t, startY, endY);
      } else if oldPos.x > pos.x {
        StepWest(w, oldPos, t, startY, endY);
      } else {
        forall i, j | 0 <= i < MAP_WALK_HEIGHT && 0 <= j < MAP_WALK_WIDTH
          ensures CellRight(t, oldPos, pos.x, i, j)
        {
          assert HalfRight(t, oldPos, startY, endY, i, j);
        }
      }
    }

    // -------------------------------------------------------------- events

    /**
     A tile item has been added, replaced or removed; `asks` says whether the flags of the item types
     make the handler look at the tile.  From a cache that agrees it goes on to agree exactly if the
     handler looks, or need not: the tile is not watched, or as walkable as it was.
     */
    method OnTileItem(w: World, at: Position, asks: bool, ghost before: World)
      requires Valid() && isMapLoaded
      modifies cache
      ensures forall i, j :: 0 <= i < MAP_WALK_HEIGHT && 0 <= j < MAP_WALK_WIDTH ==>
        cache[i, j] == if asks && at == PositionOf(pos.x, i, j) then Walkable(w(at)) else old(cache[i, j])
      ensures old(Agrees(before)) && ChangedIn(before, w, {at}) ==>
        (Agrees(w) <==> asks || !Watches(at) || Walkable(before(at)) == Walkable(w(at)))
    {
      if isMapLoaded && asks && at.z == pos.z {
        UpdateAt(w(at), at);
      }
      Changed(before, w, {at});
      if Watches(at) {
        CellOf(at);
      }
    }

    /** Cells of unchanged positions stay right. */
    lemma Changed(before: World, w: World, where: set<Position>)
      requires Valid()
      ensures ChangedIn(before, w, where) ==>
        forall i, j :: 0 <= i < MAP_WALK_HEIGHT && 0 <= j < MAP_WALK_WIDTH ==>
          PositionOf(pos.x, i, j) in where
          || Walkable(before(PositionOf(pos.x, i, j))) == Walkable(w(PositionOf(pos.x, i, j)))
    {
    }

    /** Another creature has appeared. */
    method OnOtherAppears(w: World, at: Position, ghost before: World)
      requires Valid() && isMapLoaded
      modifies cache
      ensures forall i, j :: 0 <= i < MAP_WALK_HEIGHT && 0 <= j < MAP_WALK_WIDTH ==>
        cache[i, j] == if at == PositionOf(pos.x, i, j) then Walkable(w(at)) else old(cache[i, j])
      ensures old(Agrees(before)) && ChangedIn(before, w, {at}) ==> Agrees(w)
    {
      ghost var agreed := Agrees(before) && ChangedIn(before, w, {at});
      hide ChangedIn;
      if isMapLoaded && at.z == pos.z {
        UpdateAt(w(at), at);
      }
      if agreed {
        forall i, j | 0 <= i < MAP_WALK_HEIGHT && 0 <= j < MAP_WALK_WIDTH && !OwnCell(i, j)
          ensures cache[i, j] == Walkable(w(PositionOf(pos.x, i, j)))
        {
          SameElsewhere(before, w, {at}, PositionOf(pos.x, i, j));
        }
      }
    }

    /** Both ends of a move are asked. */
    method AskBoth(w: World, newPos: Position, oldPos: Position)
      requires Valid()
      modifies cache
      ensures forall i, j :: 0 <= i < MAP_WALK_HEIGHT && 0 <= j < MAP_WALK_WIDTH ==>
        var at := PositionOf(pos.x, i, j);
        cache[i, j] == if at == newPos || at == oldPos then Walkable(w(at)) else old(cache[i, j])
    {
      if newPos.z == pos.z {
        UpdateAt(w(newPos), newPos);
      }
      if oldPos.z == pos.z {
        UpdateAt(w(oldPos), oldPos);
      }
    }

    /** Another creature has moved. */
    method OnOtherMoves(w: World, newPos: Position, oldPos: Position, ghost before: World)
      requires Valid() && isMapLoaded
      modifies cache
      ensures forall i, j :: 0 <= i < MAP_WALK_HEIGHT && 0 <= j < MAP_WALK_WIDTH ==>
        var at := PositionOf(pos.x, i, j);
        cache[i, j] == if at == newPos || at == oldPos then Walkable(w(at)) else old(cache[i, j])
      ensures old(Agrees(before)) && ChangedIn(before, w, {newPos, oldPos}) ==> Agrees(w)
    {
      ghost var agreed := Agrees(before) && ChangedIn(before, w, {newPos, oldPos});
      hide ChangedIn;
      AskBoth(w, newPos, oldPos);
      if agreed {
        forall i, j | 0 <= i < MAP_WALK_HEIGHT && 0 <= j < MAP_WALK_WIDTH && !OwnCell(i, j)
          ensures cache[i, j] == Walkable(w(PositionOf(pos.x, i, j)))
        {
          SameElsewhere(before, w, {newPos, oldPos}, PositionOf(pos.x, i, j));
        }
      }
    }

    lemma SameElsewhere(before: World, w: World, where: set<Position>, p: Position)
      ensures ChangedIn(before, w, where) ==> p in where || Walkable(before(p)) == Walkable(w(p))
    {
    }

    /** The creature has been put on the map: from now on the cache is kept. */
    method OnSelfAppears(w: World, ghost a: Answers)
      requires Valid() && Holds(a)
      modifies this`isMapLoaded, cache
      ensures isMapLoaded == (useCacheMap || old(isMapLoaded))
      ensures Holds(if useCacheMap then Rebuilt(pos, pos, a, w) else a)
      ensures useCacheMap ==>
        (Agrees(w) <==> forall i, j :: 0 <= i < MAP_WALK_HEIGHT && 0 <= j < MAP_WALK_WIDTH && !OwnCell(i, j) ==>
           Known(w, i, j) || !old(cache[i, j]))
    {
      if useCacheMap {
        isMapLoaded := true;
        UpdateMapCache(w);
      }
    }

    /** A step to a neighbour tile: shift, refresh what comes in, and refresh where it came from. */
    method OnStep(w: World, oldPos: Position, ghost t: Answers)
      requires Valid() && Incoming(w, oldPos, t) && t(oldPos) == Walkable(w(oldPos))
      requires oldPos.z == pos.z && -1 <= pos.x - oldPos.x <= 1 && -1 <= pos.y - oldPos.y <= 1
      requires forall i, j :: 0 <= i < MAP_WALK_HEIGHT && 0 <= j < MAP_WALK_WIDTH ==> WasRight(t, oldPos, i, j)
      modifies cache
      ensures Holds(t)
    {
      hide WasRight, HalfRight, Incoming;
      StepRows(w, oldPos, t);
      StepColumns(w, oldPos, t);
      forall i, j | 0 <= i < MAP_WALK_HEIGHT && 0 <= j < MAP_WALK_WIDTH && !OwnCell(i, j)
        ensures PositionOf(pos.x, i, j) == oldPos || cache[i, j] == t(PositionOf(pos.x, i, j))
      {
        assert CellRight(t, oldPos, pos.x, i, j);
      }
      UpdateAt(w(oldPos), oldPos);
    }

    /** Before a step all cells hold what will be believed, but for its two ends. */
    lemma StillBelieved(w: World, oldPos: Position, a: Answers, t: Answers)
      requires Valid() && HoldsAround(oldPos, a) && oldPos.z == pos.z && t == Next(oldPos, a, SelfMoved(pos, false), w)
      ensures forall i, j :: 0 <= i < MAP_WALK_HEIGHT && 0 <= j < MAP_WALK_WIDTH ==> WasRight(t, oldPos, i, j)
      ensures Incoming(w, oldPos, t) && t(oldPos) == Walkable(w(oldPos))
    {
      forall i, j | 0 <= i < MAP_WALK_HEIGHT && 0 <= j < MAP_WALK_WIDTH
        ensures WasRight(t, oldPos, i, j)
      {
        var at := Position(oldPos.x + j - RADIUS_X, oldPos.y + i - RADIUS_Y, oldPos.z);
        assert Near(oldPos, at);
        assert !OwnCell(i, j) ==> cache[i, j] == a(at);
      }
    }

    /** Everything is asked again, at the place where the creature is now. */
    method OnJump(w: World, oldPos: Position, ghost a: Answers)
      requires Valid() && HoldsAround(oldPos, a)
      modifies cache
      ensures Holds(Rebuilt(oldPos, pos, a, w))
    {
      UpdateMapCache(w);
      forall i, j | 0 <= i < MAP_WALK_HEIGHT && 0 <= j < MAP_WALK_WIDTH && !OwnCell(i, j)
        ensures cache[i, j] == Rebuilt(oldPos, pos, a, w)(PositionOf(pos.x, i, j))
      {
        assert SameCell(oldPos, pos, PositionOf(pos.x, i, j))
            == Position(oldPos.x + j - RADIUS_X, oldPos.y + i - RADIUS_Y, oldPos.z);
      }
    }

    /** The creature itself has moved from `oldPos` to `pos`. */
    method OnSelfMoves(w: World, oldPos: Position, teleport: bool, ghost a: Answers)
      requires Valid() && isMapLoaded && HoldsAround(oldPos, a) && Steps(oldPos, SelfMoved(pos, teleport))
      modifies cache
      ensures Holds(Next(oldPos, a, SelfMoved(pos, teleport), w))
    {
      hide Incoming, WasRight, HoldsAround, Rebuilt;
      if !teleport && oldPos.z == pos.z {
        ghost var t := Next(oldPos, a, SelfMoved(pos, false), w);
        StillBelieved(w, oldPos, a, t);
        OnStep(w, oldPos, t);
      } else {
        OnJump(w, oldPos, a);
      }
    }

    /** An event that is not the creature's own. */
    method HandleOther(e: Event, w: World, ghost a: Answers)
      requires Valid() && isMapLoaded && Holds(a) && !e.SelfMoved? && !e.SelfAppeared?
      modifies cache
      ensures Holds(Next(pos, a, e, w))
    {
      hide Agrees, ChangedIn;
      match e
      case ItemAdded(at) => OnTileItem(w, at, true, w);
      case ItemUpdated(at, asks) => OnTileItem(w, at, asks, w);
      case ItemRemoved(at, asks) => OnTileItem(w, at, asks, w);
      case OtherAppeared(at) => OnOtherAppears(w, at, w);
      case OtherMoved(to, from) => OnOtherMoves(w, to, from, w);
      case Unseen(_) =>
    }

    /** One event, handled: the cache goes on to hold what is believed. */
    method Handle(e: Event, w: World, ghost a: Answers)
      requires Valid() && isMapLoaded && useCacheMap && Holds(a) && Steps(pos, e)
      modifies this, cache
      ensures isMapLoaded && pos == PositionAfter(old(pos), e) && Holds(Next(old(pos), a, e, w))
    {
      hide HoldsAround, Agrees, Rebuilt;
      match e
      case SelfAppeared => OnSelfAppears(w, a);
      case SelfMoved(to, teleport) =>
        var oldPos := pos;
        pos := to;
        OnSelfMoves(w, oldPos, teleport, a);
      case _ => HandleOther(e, w, a);
    }

    /**
     After any run of events the cache holds, for every watched position, the answer that was given when it was
     last asked.  So what is not stale agrees with the map, all of it agrees exactly when every stale position
     that is watched is as walkable as when it was last asked, and in particular when nothing ever changed
     unasked.  That is so in every run in which events change only what they touch, none is unseen, items that make
     nobody look change no answer, and there are tiles wherever the creature looks all around.
     */
    method Run(run: Course, ghost a: Answers, ghost before: World, ghost stale: set<Position>)
      requires Valid() && isMapLoaded && useCacheMap && Holds(a) && StepsRun(pos, run)
      modifies this, cache
      ensures isMapLoaded && pos == Finally(old(pos), run) && Holds(Answered(old(pos), a, run))
      ensures RightBut(old(pos), a, before, stale) && Confined(old(pos), before, run) ==>
        var w, s := LastWorld(before, run), StaleThen(old(pos), stale, run);
        && RightBut(pos, Answered(old(pos), a, run), w, s)
        && (Agrees(w) <==> forall p :: p in s && Watches(p) ==> Answered(old(pos), a, run)(p) == Walkable(w(p)))
      ensures old(Agrees(before)) && SeenRun(old(pos), a, before, run) ==> Agrees(LastWorld(before, run))
      ensures old(Agrees(before)) && Followed(old(pos), before, run) ==> Agrees(LastWorld(before, run))
    {
      hide Holds, Next, Right, RightBut, Seen, StaleAfter, Agrees, HoldsAround;
      ghost var center := pos;
      if Agrees(before) {
        HeldAgrees(a, before);
      }
      if Followed(pos, before, run) {
        FollowedIsSeen(pos, a, before, run);
      }
      if Right(pos, a, before) && SeenRun(pos, a, before, run) {
        SeenIsRight(pos, a, before, run);
      }
      if RightBut(pos, a, before, stale) && Confined(pos, before, run) {
        StaleExactly(pos, a, before, stale, run);
      }
      ghost var b := a;
      var i := 0;
      assert run[0..] == run;
      while i < |run|
        invariant 0 <= i <= |run| && isMapLoaded && Holds(b) && StepsRun(pos, run[i..])
        invariant Finally(pos, run[i..]) == Finally(center, run)
        invariant Answered(pos, b, run[i..]) == Answered(center, a, run)
      {
        assert run[i..][0] == run[i] && run[i..][1..] == run[i + 1..];
        ghost var c := pos;
        Handle(run[i].0, run[i].1, b);
        b := Next(c, b, run[i].0, run[i].1);
        i := i + 1;
      }
      HeldAgrees(b, LastWorld(before, run));
    }

    /** What path finding asks: 1 for yes, 0 for no, 2 for not known here. */
    method GetWalkCache(at: Position, ghost a: Answers) returns (answer: int)
      requires Valid() && (isMapLoaded ==> Holds(a))
      ensures !(useCacheMap && Watches(at)) ==>
        answer == if useCacheMap && at.z != pos.z then 0 else if useCacheMap && at == pos then 1 else 2
      ensures useCacheMap && isMapLoaded && Watches(at) ==> answer == if a(at) then 1 else 0
    {
      if !useCacheMap { return 2; }
      if pos.z != at.z { return 0; }
      if at == pos { return 1; }
      var dx, dy := at.x - pos.x, at.y - pos.y;
      if InWindow(dx, dy) {
        var i, j := RADIUS_Y + dy, RADIUS_X + dx;
        assert at == Position(pos.x + j - RADIUS_X, pos.y + i - RADIUS_Y, pos.z);
        return if cache[i, j] then 1 else 0;
      }
      return 2;
    }
  }

  /**
   A field burns out beside a creature that it kept away.  The item carries no flag that the handler tests, so
   the creature goes on to believe that it cannot walk there.
   */
  method BurntOut(pos: Position) returns (c: Creature, w: World, field: Position, answer: int)
    ensures fresh(c) && c.Valid() && c.useCacheMap && c.isMapLoaded && c.pos == pos && c.Watches(field)
    ensures Walkable(w(field)) && !c.Agrees(w) && answer == 0
  {
    c := new Creature(pos, true);
    field := Position(pos.x + 1, pos.y, pos.z);
    var at := field;
    var burning: World := p => Tile(p != at);
    w := p => Tile(true);
    c.OnSelfAppears(burning, p => false);
    ghost var a: Answers := p => Walkable(burning(p));
    c.OnTileItem(w, field, false, burning);
    answer := c.GetWalkCache(field, a);
  }
}
