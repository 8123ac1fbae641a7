/**
 The area a spell covers: a matrix drawn for casting to the north, the three matrices turned from it, the
 mirrored and flipped ones for the diagonals, and the listing of the map positions they cover.
 */
module CombatAreas {
  import opened Basics

  const UINT16: nat := 0x1_0000

  /** Matrices are kept this small, so that every centre of a turned one fits its 16-bit field. */
  const LARGEST: nat := 0x8000

  const MAP_MAX_LAYERS: nat := 16

  datatype Operation = Copy | Mirror | Flip | Rotate90 | Rotate180 | Rotate270

  datatype Direction = North | East | South | West | SouthWest | SouthEast | NorthWest | NorthEast

  datatype Offset = Offset(dy: int, dx: int)

  datatype Position = Position(x: nat, y: nat, z: nat)

  /** Where an operation takes an offset from the centre. */
  function Moved(op: Operation, o: Offset): Offset
  {
    match op
    case Copy => o
    case Mirror => Offset(o.dy, -o.dx)
    case Flip => Offset(-o.dy, o.dx)
    case Rotate90 => Offset(o.dx, -o.dy)
    case Rotate180 => Offset(-o.dy, -o.dx)
    case Rotate270 => Offset(-o.dx, o.dy)
  }

  function Inverse(op: Operation): Operation
  {
    match op
    case Rotate90 => Rotate270
    case Rotate270 => Rotate90
    case _ => op
  }

  lemma MovedBack(op: Operation, o: Offset)
    ensures Moved(Inverse(op), Moved(op, o)) == o && Moved(op, Moved(Inverse(op), o)) == o
  {
  }

  class MatrixArea {
    const rows: nat
    const cols: nat
    const data: array2<bool>
    var centerX: nat
    var centerY: nat

    constructor (rows: nat, cols: nat)
      ensures Valid() && Empty() && fresh(data) && this.rows == rows && this.cols == cols
      ensures centerX == centerY == 0
    {
      this.rows, this.cols, centerX, centerY := rows, cols, 0, 0;
      data := new bool[rows, cols]((_, _) => false);
    }

    ghost predicate Shaped()
    {
      data.Length0 == rows && data.Length1 == cols
    }

    ghost predicate Valid()
      reads this
    {
      Shaped() && centerX < UINT16 && centerY < UINT16
    }

    ghost predicate Empty()
      requires Valid()
      reads this, data
    {
      forall y, x :: 0 <= y < rows && 0 <= x < cols ==> !data[y, x]
    }

    predicate InBounds(y: int, x: int)
    {
      0 <= y < rows && 0 <= x < cols
    }

    /** The cell at this offset from the centre is set. */
    ghost predicate Covers(o: Offset)
      requires Valid()
      reads this, data
    {
      InBounds(centerY + o.dy, centerX + o.dx) && data[centerY + o.dy, centerX + o.dx]
    }

    /** No cell is set. */
    ghost predicate Blank()
      requires Valid()
      reads this, data
    {
      forall o :: !Covers(o)
    }

    ghost predicate Centred()
      reads this
    {
      centerY < rows && centerX < cols
    }

    /** setCenter: both fields are 16 bits wide. */
    method SetCenter(y: int, x: int)
      requires Valid()
      modifies this`centerX, this`centerY
      ensures Valid() && centerY == y % UINT16 && centerX == x % UINT16
    {
      centerX, centerY := x % UINT16, y % UINT16;
    }
  }

  // ---------------------------------------------------------------- copyArea

  /** The input cell that the operation brings to a cell of the output; `R` is the centre of a turned output. */
  ghost function Origin(input: MatrixArea, op: Operation, R: int, y: int, x: int): (int, int)
    reads input
  {
    match op
    case Copy => (y, x)
    case Mirror => (y, input.cols - 1 - x)
    case Flip => (input.rows - 1 - y, x)
    case _ =>
      var o := Moved(Inverse(op), Offset(y - R, x - R));
      (input.centerY + o.dy, input.centerX + o.dx)
  }

  /** The order in which the loops of an operation come to the cells of the input. */
  predicate Earlier(op: Operation, y: int, x: int, atY: int, atX: int)
  {
    match op
    case Copy => y < atY || (y == atY && x < atX)
    case Mirror => y < atY || (y == atY && x > atX)
    case Flip => x < atX || (x == atX && y > atY)
    case _ => x < atX || (x == atX && y < atY)
  }

  /** The cells before (y, x) have been brought over, and nothing else is set. */
  ghost predicate Brought(input: MatrixArea, output: MatrixArea, op: Operation, R: int, y: int, x: int)
    requires input.Valid() && output.Shaped()
    reads input, input.data, output.data
  {
    forall Y, X :: 0 <= Y < output.rows && 0 <= X < output.cols ==>
      (output.data[Y, X] <==> ShownAt(input, op, R, Y, X, y, x))
  }

  ghost predicate ShownAt(input: MatrixArea, op: Operation, R: int, Y: int, X: int, y: int, x: int)
    requires input.Valid()
    reads input, input.data
  {
    var o := Origin(input, op, R, Y, X);
    input.InBounds(o.0, o.1) && Earlier(op, o.0, o.1, y, x) && input.data[o.0, o.1]
  }

  method CopyCells(input: MatrixArea, output: MatrixArea)
    requires input.Valid() && output.Valid() && output.Empty() && input.data != output.data
    requires input.rows <= output.rows && input.cols <= output.cols
    modifies output.data
    ensures Brought(input, output, Copy, 0, input.rows, 0)
  {
    var y := 0;
    while y < input.rows
      invariant y <= input.rows && Brought(input, output, Copy, 0, y, 0)
    {
      var x := 0;
      while x < input.cols
        invariant x <= input.cols && Brought(input, output, Copy, 0, y, x)
      {
        output.data[y, x] := input.data[y, x];
        x := x + 1;
      }
      y := y + 1;
    }
  }

  method MirrorCells(input: MatrixArea, output: MatrixArea)
    requires input.Valid() && output.Valid() && output.Empty() && input.data != output.data
    requires input.rows <= output.rows && input.cols <= output.cols
    modifies output.data
    ensures Brought(input, output, Mirror, 0, input.rows, input.cols - 1)
  {
    var y := 0;
    while y < input.rows
      invariant y <= input.rows && Brought(input, output, Mirror, 0, y, input.cols - 1)
    {
      var rx := 0;
      var x := input.cols - 1;
      while x >= 0
        invariant -1 <= x < input.cols && rx == input.cols - 1 - x && Brought(input, output, Mirror, 0, y, x)
      {
        output.data[y, rx] := input.data[y, x];
        rx := rx + 1;
        x := x - 1;
      }
      y := y + 1;
    }
  }

  method FlipCells(input: MatrixArea, output: MatrixArea)
    requires input.Valid() && output.Valid() && output.Empty() && input.data != output.data
    requires input.rows <= output.rows && input.cols <= output.cols
    modifies output.data
    ensures Brought(input, output, Flip, 0, input.rows - 1, input.cols)
  {
    var x := 0;
    while x < input.cols
      invariant x <= input.cols && Brought(input, output, Flip, 0, input.rows - 1, x)
    {
      var ry := 0;
      var y := input.rows - 1;
      while y >= 0
        invariant -1 <= y < input.rows && ry == input.rows - 1 - y && Brought(input, output, Flip, 0, y, x)
      {
        output.data[ry, x] := input.data[y, x];
        ry := ry + 1;
        y := y - 1;
      }
      x := x + 1;
    }
  }

  predicate Turns(op: Operation)
  {
    op.Rotate90? || op.Rotate180? || op.Rotate270?
  }

  /** A turned output has room for every cell around its centre. */
  ghost predicate RoomToTurn(input: MatrixArea, output: MatrixArea)
    reads input
  {
    && output.rows == output.cols && 2 * input.rows <= output.rows && 2 * input.cols <= output.rows
    && (0 < input.rows && 0 < input.cols ==> input.Centred())
  }

  /** A turn moves every cell of the input to a cell of the output. */
  lemma TurnFits(input: MatrixArea, output: MatrixArea, op: Operation, y: nat, x: nat)
    ensures Turns(op) && RoomToTurn(input, output) && y < input.rows && x < input.cols ==>
      var o := Moved(op, Offset(y - input.centerY, x - input.centerX));
            output.InBounds(o.dy + output.rows / 2 - 1, o.dx + output.rows / 2 - 1)
  {
  }

  /** One cell further: only that cell of the output can change which the turn brings it to. */
  lemma ShownNext(input: MatrixArea, op: Operation, R: int, Y: int, X: int, y: nat, x: nat)
    requires input.Valid() && Turns(op) && y < input.rows && x < input.cols
    ensures var o := Moved(op, Offset(y - input.centerY, x - input.centerX));
            ShownAt(input, op, R, Y, X, y + 1, x) ==
            if Y == o.dy + R && X == o.dx + R then input.data[y, x] else ShownAt(input, op, R, Y, X, y, x)
  {
    var o := Moved(op, Offset(y - input.centerY, x - input.centerX));
    MovedBack(op, Offset(y - input.centerY, x - input.centerX));
    MovedBack(op, Offset(Y - R, X - R));
    if Origin(input, op, R, Y, X) == (y, x) {
      assert Offset(Y - R, X - R) == o;
    } else {
      assert Offset(Y - R, X - R) != o;
    }
  }

  /** Writing one turned cell: no cell written before is hit again. */
  method WriteTurned(input: MatrixArea, output: MatrixArea, op: Operation, y: nat, x: nat, rotatedY: int, rotatedX: int)
    requires input.Valid() && output.Valid() && input.data != output.data
    requires Turns(op) && RoomToTurn(input, output) && y < input.rows && x < input.cols
    requires Offset(rotatedY, rotatedX) == Moved(op, Offset(y - input.centerY, x - input.centerX))
    requires Brought(input, output, op, output.rows / 2 - 1, y, x)
    modifies output.data
    ensures Brought(input, output, op, output.rows / 2 - 1, y + 1, x)
  {
    hide ShownAt, Moved;
    TurnFits(input, output, op, y, x);
    ghost var R := output.rows / 2 - 1;
    forall Y, X | 0 <= Y < output.rows && 0 <= X < output.cols
      ensures ShownAt(input, op, R, Y, X, y + 1, x) ==
              if Y == rotatedY + R && X == rotatedX + R then input.data[y, x] else ShownAt(input, op, R, Y, X, y, x)
    {
      ShownNext(input, op, R, Y, X, y, x);
    }
    output.data[rotatedY + output.rows / 2 - 1, rotatedX + output.cols / 2 - 1] := input.data[y, x];
  }

  method RotateCells(input: MatrixArea, output: MatrixArea, op: Operation)
    requires input.Valid() && output.Valid() && output.Empty() && input.data != output.data
    requires Turns(op) && RoomToTurn(input, output)
    modifies output.data
    ensures Brought(input, output, op, output.rows / 2 - 1, 0, input.cols)
  {
    var a, b, c, d;
    match op {
      case Rotate90 => a, b, c, d := 0, -1, 1, 0;
      case Rotate180 => a, b, c, d := -1, 0, 0, -1;
      case Rotate270 => a, b, c, d := 0, 1, -1, 0;
    }
    ghost var R := output.rows / 2 - 1;
    var x := 0;
    assert Brought(input, output, op, R, 0, 0);
    while x < input.cols
      invariant x <= input.cols && Brought(input, output, op, R, 0, x)
    {
      var y := 0;
      while y < input.rows
        invariant y <= input.rows && Brought(input, output, op, R, y, x)
      {
        var newX, newY := x - input.centerX, y - input.centerY;
        var rotatedX, rotatedY := newX * a + newY * b, newX * c + newY * d;
        hide Brought;
        WriteTurned(input, output, op, y, x, rotatedY, rotatedX);
        y := y + 1;
      }
      NextColumn(input, output, op, R, x);
      x := x + 1;
    }
  }

  lemma NextColumn(input: MatrixArea, output: MatrixArea, op: Operation, R: int, x: int)
    requires input.Valid() && output.Valid() && Turns(op) && Brought(input, output, op, R, input.rows, x)
    ensures Brought(input, output, op, R, 0, x + 1)
  {
    forall Y, X | 0 <= Y < output.rows && 0 <= X < output.cols
      ensures ShownAt(input, op, R, Y, X, input.rows, x) == ShownAt(input, op, R, Y, X, 0, x + 1)
    {
    }
  }

  /** The operation takes the offsets that the input covers to exactly those that the output covers. */
  ghost predicate Carries(input: MatrixArea, output: MatrixArea, op: Operation)
    requires input.Valid() && output.Valid()
    reads input, input.data, output, output.data
  {
    forall o :: input.Covers(o) <==> output.Covers(Moved(op, o))
  }

  /** All cells were brought over. */
  ghost predicate AllBrought(input: MatrixArea, output: MatrixArea, op: Operation)
    requires input.Valid() && output.Shaped()
    reads input, input.data, output.data
  {
    match op
    case Copy => Brought(input, output, op, 0, input.rows, 0)
    case Mirror => Brought(input, output, op, 0, input.rows, input.cols - 1)
    case Flip => Brought(input, output, op, 0, input.rows - 1, input.cols)
    case _ => Brought(input, output, op, output.rows / 2 - 1, 0, input.cols)
  }

  /** Room for the operation, and a centre that 16 bits can hold. */
  ghost predicate Room(input: MatrixArea, output: MatrixArea, op: Operation)
    reads input
  {
    if Turns(op) then RoomToTurn(input, output) && 2 <= output.rows <= 2 * LARGEST
    else input.rows <= output.rows && input.cols <= output.cols
  }

  /** copyArea.  A mirrored centre is taken from the rows, a flipped one from the columns. */
  method CopyArea(input: MatrixArea, output: MatrixArea, op: Operation)
    requires input.Valid() && output.Valid() && output.Empty() && input != output && input.data != output.data
    requires Room(input, output, op)
    modifies output, output.data
    ensures output.Valid() && AllBrought(input, output, op)
    ensures match op
            case Copy => output.centerY == input.centerY && output.centerX == input.centerX
            case Mirror =>
              output.centerY == input.centerY && output.centerX == (input.rows - 1 - input.centerX) % UINT16
            case Flip =>
              output.centerY == (input.cols - 1 - input.centerY) % UINT16 && output.centerX == input.centerX
            case _ => output.centerY == output.centerX == output.rows / 2 - 1
  {
    hide Brought, ShownAt, Origin, Earlier, Moved, Inverse;
    BringCells(input, output, op);
    SetCentreOf(input, output, op);
  }

  /** The cells of copyArea. */
  method BringCells(input: MatrixArea, output: MatrixArea, op: Operation)
    requires input.Valid() && output.Valid() && output.Empty() && input != output && input.data != output.data
    requires Room(input, output, op)
    modifies output.data
    ensures AllBrought(input, output, op)
  {
    hide Brought, ShownAt, Origin, Earlier, Moved, Inverse;
    match op {
      case Copy => CopyCells(input, output);
      case Mirror => MirrorCells(input, output);
      case Flip => FlipCells(input, output);
      case _ => RotateCells(input, output, op);
    }
  }

  /** The centre of copyArea. */
  method SetCentreOf(input: MatrixArea, output: MatrixArea, op: Operation)
    requires input.Valid() && output.Valid() && Room(input, output, op) && input != output
    modifies output`centerX, output`centerY
    ensures output.Valid()
    ensures match op
            case Copy => output.centerY == input.centerY && output.centerX == input.centerX
            case Mirror =>
              output.centerY == input.centerY && output.centerX == (input.rows - 1 - input.centerX) % UINT16
            case Flip =>
              output.centerY == (input.cols - 1 - input.centerY) % UINT16 && output.centerX == input.centerX
            case _ => output.centerY == output.centerX == output.rows / 2 - 1
  {
    match op {
      case Copy => output.SetCenter(input.centerY, input.centerX);
      case Mirror => output.SetCenter(input.centerY, (input.rows - 1) - input.centerX);
      case Flip => output.SetCenter((input.cols - 1) - input.centerY, input.centerX);
      case _ => output.SetCenter(output.rows / 2 - 1, output.cols / 2 - 1);
    }
  }

  /** Turned areas cover exactly the turned offsets. */
  lemma TurnCarries(input: MatrixArea, output: MatrixArea, op: Operation)
    requires input.Valid() && output.Valid() && Turns(op) && Room(input, output, op) && AllBrought(input, output, op)
    requires output.centerY == output.centerX == output.rows / 2 - 1
    ensures Carries(input, output, op)
  {
    forall o: Offset
      ensures input.Covers(o) <==> output.Covers(Moved(op, o))
    {
      TurnCarriesOne(input, output, op, o);
    }
  }

  lemma OriginOfMoved(input: MatrixArea, op: Operation, R: int, o: Offset)
    requires Turns(op)
    ensures Origin(input, op, R, R + Moved(op, o).dy, R + Moved(op, o).dx) == (input.centerY + o.dy, input.centerX + o.dx)
  {
    MovedBack(op, o);
  }

  lemma TurnCarriesOne(input: MatrixArea, output: MatrixArea, op: Operation, o: Offset)
    requires input.Valid() && output.Valid() && Turns(op) && Room(input, output, op) && AllBrought(input, output, op)
    requires output.centerY == output.centerX == output.rows / 2 - 1
    ensures input.Covers(o) <==> output.Covers(Moved(op, o))
  {
    hide Origin, Moved, Inverse, AllBrought, Brought, ShownAt, Earlier, Room, RoomToTurn, Turns;
    var R, m := output.rows / 2 - 1, Moved(op, o);
    var y, x := input.centerY + o.dy, input.centerX + o.dx;
    RoomOfTurn(input, output, op);
    OriginOfMoved(input, op, R, o);
    if input.InBounds(y, x) {
      TurnFits(input, output, op, y, x);
    }
    if output.InBounds(R + m.dy, R + m.dx) {
      TurnShows(input, output, op, R + m.dy, R + m.dx);
    }
  }

  lemma RoomOfTurn(input: MatrixArea, output: MatrixArea, op: Operation)
    ensures Turns(op) && Room(input, output, op) ==> RoomToTurn(input, output)
  {
  }

  /** A turned output shows the cell of the input that its own cell comes from. */
  lemma TurnShows(input: MatrixArea, output: MatrixArea, op: Operation, Y: nat, X: nat)
    requires input.Valid() && output.Valid() && Turns(op) && AllBrought(input, output, op) && output.InBounds(Y, X)
    ensures var o := Origin(input, op, output.rows / 2 - 1, Y, X);
            output.data[Y, X] <==> input.InBounds(o.0, o.1) && input.data[o.0, o.1]
  {
    hide Origin;
    assert output.data[Y, X] <==> ShownAt(input, op, output.rows / 2 - 1, Y, X, 0, input.cols);
  }

  // ---------------------------------------------------------------- mirrors and flips

  /** The cells of a mirrored output, wherever its centre is. */
  lemma MirroredCell(input: MatrixArea, output: MatrixArea, o: Offset, k: int)
    requires input.Valid() && output.Valid() && AllBrought(input, output, Mirror) && Room(input, output, Mirror)
    requires output.centerY == input.centerY && output.centerX == input.cols - 1 - input.centerX + k
    ensures output.Covers(Moved(Mirror, o)) <==> input.Covers(Offset(o.dy, o.dx - k))
  {
    var Y, X := output.centerY + o.dy, output.centerX - o.dx;
    assert Origin(input, Mirror, 0, Y, X) == (input.centerY + o.dy, input.centerX + o.dx - k);
    if output.InBounds(Y, X) {
      assert output.data[Y, X] <==> ShownAt(input, Mirror, 0, Y, X, input.rows, input.cols - 1);
    }
  }

  /** The cells of a flipped output, wherever its centre is. */
  lemma FlippedCell(input: MatrixArea, output: MatrixArea, o: Offset, k: int)
    requires input.Valid() && output.Valid() && AllBrought(input, output, Flip) && Room(input, output, Flip)
    requires output.centerX == input.centerX && output.centerY == input.rows - 1 - input.centerY + k
    ensures output.Covers(Moved(Flip, o)) <==> input.Covers(Offset(o.dy - k, o.dx))
  {
    var Y, X := output.centerY - o.dy, output.centerX + o.dx;
    assert Origin(input, Flip, 0, Y, X) == (input.centerY + o.dy - k, input.centerX + o.dx);
    if output.InBounds(Y, X) {
      assert output.data[Y, X] <==> ShownAt(input, Flip, 0, Y, X, input.rows - 1, input.cols);
    }
  }

  function Shifted(o: Offset, dy: int, dx: int): Offset
  {
    Offset(o.dy + dy, o.dx + dx)
  }

  /** No finite pattern is unchanged by a shift. */
  lemma {:induction false} NoShift(area: MatrixArea, o: Offset, dy: int, dx: int, left: nat)
    requires area.Valid() && area.Covers(o) && (dy != 0 || dx != 0)
    requires forall p :: area.Covers(p) ==> area.Covers(Shifted(p, dy, dx))
    requires dy > 0 ==> area.rows - (area.centerY + o.dy) <= left
    requires dy < 0 ==> area.centerY + o.dy <= left
    requires dy == 0 && dx > 0 ==> area.cols - (area.centerX + o.dx) <= left
    requires dy == 0 && dx < 0 ==> area.centerX + o.dx <= left
    ensures false
    decreases left
  {
    var p := Shifted(o, dy, dx);
    assert area.Covers(p);
    if left > 0 {
      NoShift(area, p, dy, dx, left - 1);
    }
  }

  lemma ShiftLeavesNothing(area: MatrixArea, dy: int, dx: int)
    requires area.Valid() && (dy != 0 || dx != 0)
    requires forall p :: area.Covers(p) ==> area.Covers(Shifted(p, dy, dx))
    ensures area.Blank()
  {
    forall p: Offset ensures !area.Covers(p) {
      if area.Covers(p) {
        NoShift(area, p, dy, dx, area.rows + area.cols);
      }
    }
  }

  /** The stored centre is the right one exactly when the two extents agree. */
  lemma CentreOff(used: nat, right: nat, c: nat)
    ensures c < right <= UINT16 && 0 < used <= UINT16 ==> ((used - 1 - c) % UINT16 == right - 1 - c <==> used == right)
  {
  }

  /** A mirrored area is right exactly when the drawing is square, or empty. */
  lemma MirrorExact(input: MatrixArea, output: MatrixArea)
    requires input.Valid() && output.Valid() && AllBrought(input, output, Mirror) && Room(input, output, Mirror)
    requires output.centerY == input.centerY && output.centerX == (input.rows - 1 - input.centerX) % UINT16
    requires input.Centred() && input.cols <= UINT16 && input.rows <= UINT16
    ensures Carries(input, output, Mirror) <==> input.rows == input.cols || input.Blank()
  {
    var off := input.cols - 1 - input.centerX - output.centerX;
    CentreOff(input.rows, input.cols, input.centerX);
    assert off == 0 <==> input.rows == input.cols;
    hide AllBrought, Room;
    forall o: Offset
      ensures output.Covers(Moved(Mirror, o)) <==> input.Covers(Shifted(o, 0, off))
    {
      MirroredCell(input, output, o, -off);
    }
    ExactWhenUnshifted(input, output, Mirror, 0, off);
  }

  /** A flipped area is right exactly when the drawing is square, or empty. */
  lemma FlipExact(input: MatrixArea, output: MatrixArea)
    requires input.Valid() && output.Valid() && AllBrought(input, output, Flip) && Room(input, output, Flip)
    requires output.centerX == input.centerX && output.centerY == (input.cols - 1 - input.centerY) % UINT16
    requires input.Centred() && input.rows <= UINT16 && input.cols <= UINT16
    ensures Carries(input, output, Flip) <==> input.rows == input.cols || input.Blank()
  {
    var off := input.rows - 1 - input.centerY - output.centerY;
    CentreOff(input.cols, input.rows, input.centerY);
    assert off == 0 <==> input.rows == input.cols;
    hide AllBrought, Room;
    forall o: Offset
      ensures output.Covers(Moved(Flip, o)) <==> input.Covers(Shifted(o, off, 0))
    {
      FlippedCell(input, output, o, -off);
    }
    ExactWhenUnshifted(input, output, Flip, off, 0);
  }

  lemma ExactWhenUnshifted(input: MatrixArea, output: MatrixArea, op: Operation, dy: int, dx: int)
    requires input.Valid() && output.Valid()
    requires forall o :: output.Covers(Moved(op, o)) <==> input.Covers(Shifted(o, dy, dx))
    ensures Carries(input, output, op) <==> (dy == 0 && dx == 0) || input.Blank()
  {
    if dy == 0 && dx == 0 {
      assert forall o :: Shifted(o, dy, dx) == o;
    } else if Carries(input, output, op) {
      ShiftLeavesNothing(input, dy, dx);
    }
  }

  // ---------------------------------------------------------------- createArea

  /** The place of a cell in the list a matrix is drawn from. */
  function At(cols: nat, y: nat, x: nat): nat
  {
    y * cols + x
  }

  lemma AtBound(rows: nat, cols: nat, y: nat, x: nat)
    requires y < rows && x < cols
    ensures At(cols, y, x) < rows * cols
  {
    assert (y + 1) * cols <= rows * cols;
  }

  predicate Sets(v: nat)
  {
    v == 1 || v == 3
  }

  predicate Centres(v: nat)
  {
    v == 2 || v == 3
  }

  /** The cells before (y, x) are drawn: 1 and 3 set a cell. */
  ghost predicate DrawnTo(list: seq<nat>, area: MatrixArea, y: nat, x: nat)
    requires area.Shaped() && |list| == area.rows * area.cols
    reads area.data
  {
    forall Y, X :: 0 <= Y < area.rows && 0 <= X < area.cols ==>
      At(area.cols, Y, X) < |list| && (area.data[Y, X] <==> (Y < y || (Y == y && X < x)) && Sets(list[At(area.cols, Y, X)]))
  }

  /** The last 2 or 3 among the first `n` entries is the centre; without one the centre is the first cell. */
  ghost predicate CentreOf(list: seq<nat>, cols: nat, n: nat, centerY: nat, centerX: nat)
    requires n <= |list|
  {
    if forall i :: 0 <= i < n ==> !Centres(list[i]) then centerY == centerX == 0
    else At(cols, centerY, centerX) < n && Centres(list[At(cols, centerY, centerX)])
         && forall i :: At(cols, centerY, centerX) < i < n ==> !Centres(list[i])
  }

  lemma CentreNext(list: seq<nat>, cols: nat, n: nat, centerY: nat, centerX: nat, y: nat, x: nat)
    ensures n < |list| && CentreOf(list, cols, n, centerY, centerX) && At(cols, y, x) == n ==>
      if Centres(list[n]) then CentreOf(list, cols, n + 1, y, x) else CentreOf(list, cols, n + 1, centerY, centerX)
  {
  }

  lemma DrawnStart(list: seq<nat>, area: MatrixArea)
    requires area.Valid() && area.Empty() && |list| == area.rows * area.cols
    ensures DrawnTo(list, area, 0, 0)
  {
    forall Y: nat, X: nat | Y < area.rows && X < area.cols ensures At(area.cols, Y, X) < |list| {
      AtBound(area.rows, area.cols, Y, X);
    }
  }

  lemma DrawnRow(list: seq<nat>, area: MatrixArea, y: nat)
    ensures area.Shaped() && |list| == area.rows * area.cols && DrawnTo(list, area, y, area.cols) ==>
      DrawnTo(list, area, y + 1, 0)
  {
  }

  lemma AtLeastOnce(a: nat, b: nat)
    ensures a > 0 ==> a * b >= b
  {
  }

  /** Where the counters are after `i` entries. */
  lemma Counters(rows: nat, cols: nat, y: nat, x: nat, i: nat)
    requires i == At(cols, y, x) && x < cols && i <= rows * cols
    ensures i < rows * cols ==> y < rows
    ensures i == rows * cols ==> y == rows && x == 0
  {
    if y < rows {
      AtBound(rows, cols, y, x);
    } else {
      assert y * cols == rows * cols + (y - rows) * cols;
      if y > rows {
        AtLeastOnce(y - rows, cols);
      }
    }
  }

  /** The end of a row is the start of the next. */
  lemma AtNext(cols: nat, y: nat, x: nat)
    ensures At(cols, y, x + 1) == At(cols, y, x) + 1 && At(cols, y, cols) == At(cols, y + 1, 0) && At(cols, 0, 0) == 0
  {
  }

  method DrawCell(list: seq<nat>, area: MatrixArea, y: nat, x: nat, i: nat)
    requires area.Shaped() && |list| == area.rows * area.cols && y < area.rows && x < area.cols
    requires DrawnTo(list, area, y, x) && i == At(area.cols, y, x) && i < |list|
    modifies area.data
    ensures DrawnTo(list, area, y, x + 1)
  {
    hide At;
    if Sets(list[i]) {
      area.data[y, x] := true;
    }
  }

  /** One number of the list: the cell, and the centre. */
  method DrawAt(list: seq<nat>, area: MatrixArea, y: nat, x: nat, i: nat)
    requires area.Valid() && area.Centred() && |list| == area.rows * area.cols && y < area.rows <= LARGEST && x < area.cols <= LARGEST
    requires DrawnTo(list, area, y, x) && i == At(area.cols, y, x) && i < |list|
    requires CentreOf(list, area.cols, i, area.centerY, area.centerX)
    modifies area`centerX, area`centerY, area.data
    ensures area.Valid() && area.Centred() && DrawnTo(list, area, y, x + 1)
    ensures CentreOf(list, area.cols, i + 1, area.centerY, area.centerX)
  {
    hide DrawnTo, CentreOf, At;
    CentreNext(list, area.cols, i, area.centerY, area.centerX, y, x);
    DrawCell(list, area, y, x, i);
    if Centres(list[i]) {
      area.SetCenter(y, x);
    }
  }

  /** The loop of createArea. */
  method DrawList(list: seq<nat>, area: MatrixArea)
    requires list != [] && area.Valid() && area.Empty() && |list| == area.rows * area.cols
    requires 0 < area.rows <= LARGEST && 0 < area.cols <= LARGEST && area.centerX == area.centerY == 0
    modifies area, area.data
    ensures area.Centred() && area.Valid() && DrawnTo(list, area, area.rows, 0)
    ensures CentreOf(list, area.cols, |list|, area.centerY, area.centerX)
  {
    hide DrawnTo, CentreOf, At;
    DrawnStart(list, area);
    CentreStart(list, area.cols);
    AtNext(area.cols, 0, 0);
    var x, y, i := 0, 0, 0;
    while i < |list|
      invariant 0 <= i <= |list| && i == At(area.cols, y, x) && x < area.cols
      invariant i < |list| ==> y < area.rows
      invariant i == |list| ==> y == area.rows && x == 0
      invariant area.Valid() && area.Centred()
      invariant DrawnTo(list, area, y, x) && CentreOf(list, area.cols, i, area.centerY, area.centerX)
    {
      DrawAt(list, area, y, x, i);
      AtNext(area.cols, y, x);
      x, i := x + 1, i + 1;
      if area.cols == x {
        DrawnRow(list, area, y);
        x := 0;
        y := y + 1;
      }
      Counters(area.rows, area.cols, y, x, i);
    }
  }

  /** createArea: the list holds `rows` equal rows, one after the other. */
  method CreateArea(list: seq<nat>, rows: nat) returns (area: MatrixArea)
    requires 0 < rows <= LARGEST && |list| % rows == 0 && |list| / rows <= LARGEST
    ensures fresh(area) && fresh(area.data) && area.Valid() && area.rows == rows && area.cols == |list| / rows
    ensures area.rows * area.cols == |list| && DrawnTo(list, area, rows, 0)
    ensures CentreOf(list, area.cols, |list|, area.centerY, area.centerX)
    ensures list != [] ==> area.Centred()
    ensures list == [] ==> area.cols == 0
  {
    hide DrawnTo, CentreOf;
    var cols := |list| / rows;
    assert rows * cols == |list|;
    area := new MatrixArea(rows, cols);
    if list == [] {
      CentreStart(list, cols);
      DrawnNothing(list, area, rows);
    } else {
      DrawList(list, area);
    }
  }

  lemma CentreStart(list: seq<nat>, cols: nat)
    ensures CentreOf(list, cols, 0, 0, 0)
  {
  }

  lemma DrawnNothing(list: seq<nat>, area: MatrixArea, rows: nat)
    requires area.Shaped() && area.rows == rows > 0 && |list| == area.rows * area.cols == 0
    ensures DrawnTo(list, area, rows, 0)
  {
    assert area.cols == 0;
  }

  // ---------------------------------------------------------------- the positions an area covers

  /** The position at an offset from the target; coordinates are 16 bits wide. */
  function Hit(target: Position, o: Offset): Position
  {
    Position((target.x + o.dx) % UINT16, (target.y + o.dy) % UINT16, target.z)
  }

  ghost function Where(area: MatrixArea, target: Position, y: nat, x: nat): Position
    reads area
  {
    Hit(target, Offset(y - area.centerY, x - area.centerX))
  }

  ghost predicate Reached(area: MatrixArea, target: Position, clear: Position -> bool, y: nat, x: nat)
    requires area.Shaped() && y < area.rows && x < area.cols
    reads area, area.data
  {
    area.data[y, x] && target.z < MAP_MAX_LAYERS && clear(Where(area, target, y, x))
  }

  /** The positions of the cells before (y, x), row by row. */
  ghost function Listing(area: MatrixArea, target: Position, clear: Position -> bool, y: nat, x: nat): seq<Position>
    requires area.Shaped() && y <= area.rows && x <= area.cols && (y == area.rows ==> x == 0)
    reads area, area.data
    decreases y, x
  {
    if x > 0 then
      Listing(area, target, clear, y, x - 1)
      + if Reached(area, target, clear, y, x - 1) then [Where(area, target, y, x - 1)] else []
    else if y > 0 then Listing(area, target, clear, y - 1, area.cols)
    else []
  }

  /** A position is listed exactly when a covered cell before (y, x) hits it in clear sight. */
  lemma {:induction false} ListedIff(area: MatrixArea, target: Position, clear: Position -> bool, y: nat, x: nat, p: Position)
    requires area.Shaped() && y <= area.rows && x <= area.cols && (y == area.rows ==> x == 0)
    ensures p in Listing(area, target, clear, y, x) <==>
            exists Y: nat, X: nat :: Before(Y, X, y, x) && area.InBounds(Y, X)
                                     && Reached(area, target, clear, Y, X) && p == Where(area, target, Y, X)
    decreases y, x
  {
    if x > 0 {
      ListedIff(area, target, clear, y, x - 1, p);
      if Reached(area, target, clear, y, x - 1) && p == Where(area, target, y, x - 1) {
        assert Before(y, x - 1, y, x) && area.InBounds(y, x - 1);
      }
      hide Reached, Where;
      assert forall Y: nat, X: nat :: Before(Y, X, y, x) <==> Before(Y, X, y, x - 1) || (Y == y && X == x - 1);
    } else if y > 0 {
      ListedIff(area, target, clear, y - 1, area.cols, p);
      hide Reached, Where;
      assert forall Y: nat, X: nat :: area.InBounds(Y, X) ==> (Before(Y, X, y, 0) <==> Before(Y, X, y - 1, area.cols));
    }
  }

  predicate Before(Y: nat, X: nat, y: nat, x: nat)
  {
    Y < y || (Y == y && X < x)
  }

  /** The whole listing holds exactly the target shifted by the covered offsets, where the sight is clear. */
  lemma ListsCovered(area: MatrixArea, target: Position, clear: Position -> bool, p: Position)
    requires area.Valid()
    ensures p in Listing(area, target, clear, area.rows, 0) <==>
            target.z < MAP_MAX_LAYERS && clear(p) && exists o :: area.Covers(o) && p == Hit(target, o)
  {
    hide Hit, Listing;
    ListedIff(area, target, clear, area.rows, 0, p);
    if p in Listing(area, target, clear, area.rows, 0) {
      var Y: nat, X: nat :| area.InBounds(Y, X) && Reached(area, target, clear, Y, X) && p == Where(area, target, Y, X);
      assert area.Covers(Offset(Y - area.centerY, X - area.centerX));
    } else if target.z < MAP_MAX_LAYERS && clear(p) && exists o :: area.Covers(o) && p == Hit(target, o) {
      var o :| area.Covers(o) && p == Hit(target, o);
      CoveredIsReached(area, target, clear, o);
    }
  }

  lemma CoveredIsReached(area: MatrixArea, target: Position, clear: Position -> bool, o: Offset)
    requires area.Valid() && area.Covers(o) && target.z < MAP_MAX_LAYERS && clear(Hit(target, o))
    ensures exists Y: nat, X: nat :: Before(Y, X, area.rows, 0) && area.InBounds(Y, X)
                                     && Reached(area, target, clear, Y, X) && Hit(target, o) == Where(area, target, Y, X)
  {
    hide Hit;
    var Y, X := area.centerY + o.dy, area.centerX + o.dx;
    assert Offset(Y - area.centerY, X - area.centerX) == o;
    assert Before(Y, X, area.rows, 0) && Reached(area, target, clear, Y, X);
  }

  /** An area that was turned from a drawing lists the target shifted by the turned offsets of the drawing. */
  lemma ListsTurned(drawn: MatrixArea, area: MatrixArea, op: Operation, target: Position, clear: Position -> bool, p: Position)
    requires drawn.Valid() && area.Valid() && Carries(drawn, area, op)
    ensures p in Listing(area, target, clear, area.rows, 0) <==>
            target.z < MAP_MAX_LAYERS && clear(p) && exists o :: drawn.Covers(o) && p == Hit(target, Moved(op, o))
  {
    ListsCovered(area, target, clear, p);
    if exists o :: area.Covers(o) && p == Hit(target, o) {
      var o :| area.Covers(o) && p == Hit(target, o);
      MovedBack(op, o);
      assert drawn.Covers(Moved(Inverse(op), o));
    }
  }

  ghost predicate NoneTwice(l: seq<Position>)
  {
    forall i, j :: 0 <= i < j < |l| ==> l[i] != l[j]
  }

  /** No position is listed twice. */
  lemma {:induction false} ListedOnce(area: MatrixArea, target: Position, clear: Position -> bool, y: nat, x: nat)
    requires area.Valid() && area.rows <= UINT16 && area.cols <= UINT16
    requires y <= area.rows && x <= area.cols && (y == area.rows ==> x == 0)
    ensures NoneTwice(Listing(area, target, clear, y, x))
    decreases y, x
  {
    if x > 0 {
      ListedOnce(area, target, clear, y, x - 1);
      NotYetListed(area, target, clear, y, x - 1);
      hide Reached, Where;
    } else if y > 0 {
      ListedOnce(area, target, clear, y - 1, area.cols);
    }
  }

  lemma NotYetListed(area: MatrixArea, target: Position, clear: Position -> bool, y: nat, x: nat)
    requires area.Valid() && y < area.rows <= UINT16 && x < area.cols <= UINT16
    ensures Where(area, target, y, x) !in Listing(area, target, clear, y, x)
  {
    hide Listing;
    var p := Where(area, target, y, x);
    ListedIff(area, target, clear, y, x, p);
    if p in Listing(area, target, clear, y, x) {
      var Y: nat, X: nat :| Before(Y, X, y, x) && area.InBounds(Y, X) && p == Where(area, target, Y, X);
      HitOnce(target, Offset(Y - area.centerY, X - area.centerX), Offset(y - area.centerY, x - area.centerX));
    }
  }

  lemma HitOnce(target: Position, a: Offset, b: Offset)
    requires a.dy - b.dy < UINT16 && b.dy - a.dy < UINT16 && a.dx - b.dx < UINT16 && b.dx - a.dx < UINT16
    requires Hit(target, a) == Hit(target, b)
    ensures a == b
  {
  }

  // ---------------------------------------------------------------- CombatArea

  /** One step in a direction. */
  function StepTo(d: Direction): Offset
  {
    match d
    case North => Offset(-1, 0)
    case East => Offset(0, 1)
    case South => Offset(1, 0)
    case West => Offset(0, -1)
    case SouthWest => Offset(1, -1)
    case SouthEast => Offset(1, 1)
    case NorthWest => Offset(-1, -1)
    case NorthEast => Offset(-1, 1)
  }

  function Sign(x: int): int
  {
    if x < 0 then -1 else if x > 0 then 1 else 0
  }

  /**
   The direction that getArea takes from the displacement of the target: the step towards it, where
   without diagonal areas only the columns count unless they are the same; south for the own position.
   */
  function DirectionOf(dx: int, dy: int, hasExtArea: bool): (d: Direction)
    ensures StepTo(d) == if dx == 0 && dy == 0 then Offset(1, 0)
                         else if hasExtArea || dx == 0 then Offset(Sign(dy), Sign(dx))
                         else Offset(0, Sign(dx))
  {
    if hasExtArea && dx < 0 && dy < 0 then NorthWest
    else if hasExtArea && dx > 0 && dy < 0 then NorthEast
    else if hasExtArea && dx < 0 && dy > 0 then SouthWest
    else if hasExtArea && dx > 0 && dy > 0 then SouthEast
    else if dx < 0 then West
    else if dx > 0 then East
    else if dy < 0 then North
    else South
  }

  /** The turn that belongs to a straight direction. */
  function TurnTo(d: Direction): Operation
  {
    match d
    case East => Rotate90
    case South => Rotate180
    case West => Rotate270
    case _ => Copy
  }

  /** A straight step in a direction is the step to the north, turned the way the area is turned. */
  lemma DirectionTurns(n: nat, d: Direction)
    requires n > 0 && d in {North, East, South, West}
    ensures var o := Moved(TurnTo(d), Offset(0 - n, 0)); forall ext :: DirectionOf(o.dx, o.dy, ext) == d
  {
  }

  /** The list an area can be drawn from: `rows` equal rows of a sane size. */
  predicate Drawable(list: seq<nat>, rows: nat)
  {
    0 < rows <= LARGEST && |list| % rows == 0 && |list| / rows <= LARGEST
  }

  /** The matrix is what the list draws. */
  ghost predicate Drawing(area: MatrixArea, list: seq<nat>, rows: nat)
    reads area, area.data
  {
    && area.Valid() && area.rows == rows && area.rows * area.cols == |list|
    && DrawnTo(list, area, rows, 0) && CentreOf(list, area.cols, |list|, area.centerY, area.centerX)
  }

  /** A fresh matrix of twice the larger extent, turned from the drawing. */
  method Turned(area: MatrixArea, op: Operation) returns (turned: MatrixArea)
    requires area.Valid() && 0 < area.rows <= LARGEST && area.cols <= LARGEST && (area.cols == 0 || area.Centred())
    requires Turns(op)
    ensures fresh(turned) && fresh(turned.data) && turned.Valid() && Carries(area, turned, op)
    ensures turned.rows == turned.cols == 2 * Max(area.cols, area.rows)
  {
    hide Carries, AllBrought;
    var maxOutput := Max(area.cols, area.rows) * 2;
    turned := new MatrixArea(maxOutput, maxOutput);
    CopyArea(area, turned, op);
    TurnCarries(area, turned, op);
  }

  /** A drawing that setupExtArea can take. */
  ghost predicate Drawn(area: MatrixArea)
    reads area
  {
    area.Valid() && area.Centred() && area.rows <= LARGEST && area.cols <= LARGEST
  }

  method Mirrored(area: MatrixArea) returns (neArea: MatrixArea)
    requires Drawn(area)
    ensures fresh(neArea) && fresh(neArea.data) && neArea.Valid()
    ensures Carries(area, neArea, Mirror) <==> area.rows == area.cols || area.Blank()
  {
    hide Carries, AllBrought;
    var maxOutput := Max(area.cols, area.rows) * 2;
    neArea := new MatrixArea(maxOutput, maxOutput);
    CopyArea(area, neArea, Mirror);
    MirrorExact(area, neArea);
  }

  method Flipped(area: MatrixArea) returns (swArea: MatrixArea)
    requires Drawn(area)
    ensures fresh(swArea) && fresh(swArea.data) && swArea.Valid() && swArea.centerX == area.centerX
    ensures swArea.rows == swArea.cols == 2 * Max(area.cols, area.rows)
    ensures Carries(area, swArea, Flip) <==> area.rows == area.cols || area.Blank()
  {
    hide Carries, AllBrought;
    var maxOutput := Max(area.cols, area.rows) * 2;
    swArea := new MatrixArea(maxOutput, maxOutput);
    CopyArea(area, swArea, Flip);
    FlipExact(area, swArea);
  }

  /** The flipped area is square, so mirroring it once more is right. */
  method MirroredAgain(swArea: MatrixArea) returns (seArea: MatrixArea)
    requires swArea.Valid() && swArea.rows == swArea.cols <= 2 * LARGEST && swArea.centerX < swArea.cols
    ensures fresh(seArea) && fresh(seArea.data) && seArea.Valid() && Carries(swArea, seArea, Mirror)
  {
    hide Carries, AllBrought;
    seArea := new MatrixArea(swArea.rows, swArea.cols);
    CopyArea(swArea, seArea, Mirror);
    MirrorRight(swArea, seArea);
  }

  /** The three diagonals made from the north-western drawing. */
  ghost predicate DiagonalsOf(nw: MatrixArea, ne: MatrixArea, sw: MatrixArea, se: MatrixArea)
    reads nw, ne, sw, se, nw.data, ne.data, sw.data, se.data
  {
    && nw.Valid() && ne.Valid() && sw.Valid() && se.Valid()
    && (Carries(nw, ne, Mirror) <==> nw.rows == nw.cols || nw.Blank())
    && (Carries(nw, sw, Flip) <==> nw.rows == nw.cols || nw.Blank())
    && Carries(sw, se, Mirror)
  }

  /** For a square drawing the south-eastern area is the drawing turned halfway round. */
  lemma SquareDiagonals(nw: MatrixArea, ne: MatrixArea, sw: MatrixArea, se: MatrixArea)
    requires DiagonalsOf(nw, ne, sw, se) && nw.rows == nw.cols
    ensures Carries(nw, ne, Mirror) && Carries(nw, sw, Flip) && Carries(nw, se, Rotate180)
  {
    forall o: Offset ensures nw.Covers(o) <==> se.Covers(Moved(Rotate180, o)) {
      assert nw.Covers(o) <==> sw.Covers(Moved(Flip, o));
      assert Moved(Mirror, Moved(Flip, o)) == Moved(Rotate180, o);
    }
  }

  method Diagonals(list: seq<nat>, rows: nat) returns (nw: MatrixArea, ne: MatrixArea, sw: MatrixArea, se: MatrixArea)
    requires list != [] && Drawable(list, rows)
    ensures Drawing(nw, list, rows) && DiagonalsOf(nw, ne, sw, se)
    ensures fresh(nw) && fresh(ne) && fresh(sw) && fresh(se)
    ensures fresh(nw.data) && fresh(ne.data) && fresh(sw.data) && fresh(se.data)
  {
    hide Carries, DrawnTo, CentreOf, MatrixArea.Blank;
    nw := CreateArea(list, rows);
    ne := Mirrored(nw);
    sw := Flipped(nw);
    se := MirroredAgain(sw);
  }

  /** A drawing of one row and two columns, where mirroring and flipping both go wrong. */
  method Askew() returns (drawn: MatrixArea, mirrored: MatrixArea, flipped: MatrixArea)
    ensures fresh({drawn, mirrored, flipped}) && drawn.Valid() && drawn.rows == 1 && drawn.cols == 2 && !drawn.Blank()
    ensures mirrored.Valid() && !Carries(drawn, mirrored, Mirror)
    ensures flipped.Valid() && !Carries(drawn, flipped, Flip)
  {
    hide Carries, DrawnTo, CentreOf, MatrixArea.Blank;
    drawn := CreateArea([3, 1], 1);
    TwoCells(drawn);
    mirrored := Mirrored(drawn);
    flipped := Flipped(drawn);
  }

  lemma TwoCells(area: MatrixArea)
    requires area.Valid() && area.rows == 1 && area.cols == 2 && DrawnTo([3, 1], area, 1, 0)
    ensures !area.Blank()
  {
    hide DrawnTo, At, MatrixArea.Blank;
    DrawnCell([3, 1], area, 0, 0);
    AtNext(area.cols, 0, 0);
    SetIsCovered(area, 0, 0);
  }

  lemma DrawnCell(list: seq<nat>, area: MatrixArea, y: nat, x: nat)
    requires area.Valid() && |list| == area.rows * area.cols && DrawnTo(list, area, area.rows, 0)
    requires y < area.rows && x < area.cols
    ensures At(area.cols, y, x) < |list| && (area.data[y, x] <==> Sets(list[At(area.cols, y, x)]))
  {
    hide At;
  }

  lemma SetIsCovered(area: MatrixArea, y: nat, x: nat)
    requires area.Valid() && area.InBounds(y, x) && area.data[y, x]
    ensures !area.Blank()
  {
    assert area.Covers(Offset(y - area.centerY, x - area.centerX));
  }

  class CombatArea {
    var areas: map<Direction, MatrixArea>
    var hasExtArea: bool

    constructor ()
      ensures areas == map[] && !hasExtArea
    {
      areas, hasExtArea := map[], false;
    }

    ghost predicate AllValid()
      reads this, areas.Values
    {
      forall d :: d in areas ==> areas[d].Valid()
    }

    /** setupArea: the drawing is the area to the north; the others are turned from it. */
    method SetupArea(list: seq<nat>, rows: nat)
      requires Drawable(list, rows)
      modifies this`areas
      ensures forall d :: d in areas <==> d in old(areas) || d in {North, East, South, West}
      ensures forall d :: d in old(areas) && d !in {North, East, South, West} ==> areas[d] == old(areas[d])
      ensures Drawing(areas[North], list, rows)
      ensures forall d :: d in {East, South, West} ==> areas[d].Valid() && Carries(areas[North], areas[d], TurnTo(d))
    {
      hide Carries;
      var area := CreateArea(list, rows);
      var southArea := Turned(area, Rotate180);
      var eastArea := Turned(area, Rotate90);
      var westArea := Turned(area, Rotate270);
      areas := areas[North := area][South := southArea][East := eastArea][West := westArea];
    }

    /**
     setupExtArea: the drawing is the area to the north-west; the north-eastern one is mirrored and the
     south-western one flipped from it, which is right exactly for square or empty drawings; the
     south-eastern one is mirrored from the south-western one, which is always right.
     */
    method SetupExtArea(list: seq<nat>, rows: nat)
      requires list != [] ==> Drawable(list, rows)
      modifies this
      ensures list == [] ==> areas == old(areas) && hasExtArea == old(hasExtArea)
      ensures list != [] ==>
        hasExtArea && forall d :: d in areas <==> d in old(areas) || d in {NorthWest, NorthEast, SouthWest, SouthEast}
      ensures forall d :: d in old(areas) && d in {North, East, South, West} ==> d in areas && areas[d] == old(areas[d])
      ensures list != [] ==> Drawing(areas[NorthWest], list, rows)
      ensures list != [] ==>
        DiagonalsOf(areas[NorthWest], areas[NorthEast], areas[SouthWest], areas[SouthEast])
    {
      if list == [] { return; }
      hide *;
      var area, neArea, swArea, seArea := Diagonals(list, rows);
      FourMore(areas, area, neArea, swArea, seArea);
      areas := areas[NorthWest := area][NorthEast := neArea][SouthWest := swArea][SouthEast := seArea];
      hasExtArea := true;
    }

    lemma FourMore(m: map<Direction, MatrixArea>, nw: MatrixArea, ne: MatrixArea, sw: MatrixArea, se: MatrixArea)
      ensures var m' := m[NorthWest := nw][NorthEast := ne][SouthWest := sw][SouthEast := se];
              && (forall d :: d in m' <==> d in m || d in {NorthWest, NorthEast, SouthWest, SouthEast})
              && (forall d :: d in m && d in {North, East, South, West} ==> d in m' && m'[d] == m[d])
              && m'[NorthWest] == nw && m'[NorthEast] == ne && m'[SouthWest] == sw && m'[SouthEast] == se
    {
    }

    /** getArea: none is there when that direction was never set up. */
    function GetArea(center: Position, target: Position): (area: MatrixArea?)
      requires AllValid()
      reads this, areas.Values
      ensures area != null ==> area.Valid()
    {
      var dir := DirectionOf(target.x - center.x, target.y - center.y, hasExtArea);
      if dir in areas then areas[dir] else null
    }

    /** getList: the covered positions in sight, row by row; `clear` is what isSightClear answers from the target. */
    method GetList(center: Position, target: Position, clear: Position -> bool) returns (found: bool, list: seq<Position>)
      requires AllValid()
      ensures found <==> GetArea(center, target) != null
      ensures found ==> var area := GetArea(center, target); list == Listing(area, target, clear, area.rows, 0)
      ensures !found ==> list == []
    {
      hide Listing, Hit, Where;
      list := [];
      var area := GetArea(center, target);
      if area == null { return false, []; }
      ghost var left, top := target.x - area.centerX, target.y - area.centerY;
      var tmpX, tmpY := (target.x - area.centerX) % UINT16, (target.y - area.centerY) % UINT16;
      var y := 0;
      ListingStart(area, target, clear);
      while y < area.rows
        invariant y <= area.rows && list == Listing(area, target, clear, y, 0)
        invariant tmpX == left % UINT16 && tmpY == (top + y) % UINT16
      {
        var x := 0;
        while x < area.cols
          invariant x <= area.cols && list == Listing(area, target, clear, y, x)
          invariant tmpX == (left + x) % UINT16
        {
          ListingNext(area, target, clear, y, x);
          Counted(area, target, y, x);
          if area.data[y, x] {
            if target.z < MAP_MAX_LAYERS && clear(Position(tmpX, tmpY, target.z)) {
              list := list + [Position(tmpX, tmpY, target.z)];
            }
          }
          OneFurther(left + x);
          tmpX := (tmpX + 1) % UINT16;
          x := x + 1;
        }
        ListingRow(area, target, clear, y);
        BackAgain(left, area.cols);
        OneFurther(top + y);
        tmpX := (tmpX - area.cols) % UINT16;
        tmpY := (tmpY + 1) % UINT16;
        y := y + 1;
      }
      found := true;
    }
  }

  lemma Counted(area: MatrixArea, target: Position, y: nat, x: nat)
    ensures Where(area, target, y, x) ==
            Position((target.x - area.centerX + x) % UINT16, (target.y - area.centerY + y) % UINT16, target.z)
  {
  }

  lemma OneFurther(a: int)
    ensures (a % UINT16 + 1) % UINT16 == (a + 1) % UINT16
  {
  }

  lemma BackAgain(a: int, b: nat)
    ensures ((a + b) % UINT16 - b) % UINT16 == a % UINT16
  {
  }

  lemma MirrorRight(input: MatrixArea, output: MatrixArea)
    requires input.Valid() && output.Valid() && AllBrought(input, output, Mirror) && Room(input, output, Mirror)
    requires output.centerY == input.centerY && output.centerX == input.cols - 1 - input.centerX
    ensures Carries(input, output, Mirror)
  {
    hide AllBrought, Room;
    forall o: Offset ensures input.Covers(o) <==> output.Covers(Moved(Mirror, o)) {
      MirroredCell(input, output, o, 0);
    }
  }

  lemma ListingStart(area: MatrixArea, target: Position, clear: Position -> bool)
    ensures area.Valid() ==> Listing(area, target, clear, 0, 0) == []
  {
  }

  lemma ListingNext(area: MatrixArea, target: Position, clear: Position -> bool, y: nat, x: nat)
    ensures area.Valid() && y < area.rows && x < area.cols ==>
      Listing(area, target, clear, y, x + 1) == Listing(area, target, clear, y, x)
            + if Reached(area, target, clear, y, x) then [Where(area, target, y, x)] else []
  {
  }

  lemma ListingRow(area: MatrixArea, target: Position, clear: Position -> bool, y: nat)
    ensures area.Valid() && y < area.rows ==>
      Listing(area, target, clear, y + 1, 0) == Listing(area, target, clear, y, area.cols)
  {
  }
}
