/**
Unit moves (freeciv-proxy/packet_converter.py): an order names the one neighbouring tile that
lies towards the destination. Tiles are numbered row by row.
*/
module UnitWalk {
  function TileIndex(x: int, y: int, width: int): int {
    x + y * width
  }

  function X(tile: int, width: int): int
    requires width > 0
  {
    tile % width
  }

  function Y(tile: int, width: int): int
    requires width > 0
  {
    tile / width
  }

  function Clamp(d: int): int {
    if d < -1 then -1 else if d > 1 then 1 else d
  }

  /** `dir_map`: the eight directions, or -1 for no move. */
  function Direction(dx: int, dy: int): int {
    if dy == -1 then (if dx == -1 then 0 else if dx == 0 then 1 else if dx == 1 then 2 else -1)
    else if dy == 0 then (if dx == -1 then 3 else if dx == 1 then 4 else -1)
    else if dy == 1 then (if dx == -1 then 5 else if dx == 0 then 6 else if dx == 1 then 7 else -1)
    else -1
  }

  datatype Order = Order(srcTile: int, destTile: int, dir: int)

  /** A unit whose tile is unknown (-1) is taken to be at the origin. */
  function StartX(srcTile: int, width: int): int
    requires width > 0
  {
    if srcTile >= 0 then X(srcTile, width) else 0
  }

  function StartY(srcTile: int, width: int): int
    requires width > 0
  {
    if srcTile >= 0 then Y(srcTile, width) else 0
  }

  /** The `unit_move` branch. */
  function MoveOrder(srcTile: int, destX: int, destY: int, width: int): Order
    requires width > 0
  {
    var dx, dy := destX - StartX(srcTile, width), destY - StartY(srcTile, width);
    Order(srcTile, TileIndex(destX, destY, width), Direction(Clamp(dx), Clamp(dy)))
  }

  const DIR_DX: seq<int> := [-1, 0, 1, -1, 1, -1, 0, 1]
  const DIR_DY: seq<int> := [-1, -1, -1, 0, 0, 1, 1, 1]

  /** Where the server puts a unit that follows a direction. */
  function Follow(tile: int, dir: int, width: int): int
    requires width > 0
  {
    if 0 <= dir < 8 then TileIndex(X(tile, width) + DIR_DX[dir], Y(tile, width) + DIR_DY[dir], width) else tile
  }

  /** The unit's tile after `n` rounds of asking for an order and following it. */
  function Walk(tile: int, destX: int, destY: int, width: int, n: nat): int
    requires width > 0
    decreases n
  {
    if n == 0 then tile
    else Walk(Follow(tile, MoveOrder(tile, destX, destY, width).dir, width), destX, destY, width, n - 1)
  }

  function Abs(d: int): nat {
    if d < 0 then -d else d
  }

  function Max(a: int, b: int): int {
    if a < b then b else a
  }

  /** Chebyshev distance. */
  function Steps(x: int, y: int, destX: int, destY: int): nat {
    Max(Abs(destX - x), Abs(destY - y))
  }

  function Distance(tile: int, destX: int, destY: int, width: int): nat
    requires width > 0
  {
    Steps(X(tile, width), Y(tile, width), destX, destY)
  }

  predicate Between(a: int, m: int, b: int) {
    a <= m <= b || b <= m <= a
  }

  // ---------------------------------------------------------------- numbering

  /** An index gives back the coordinates it was made from exactly when the column is on the map. */
  lemma IndexDecodesIff(x: int, y: int, width: int)
    requires width > 0
    ensures X(TileIndex(x, y, width), width) == x && Y(TileIndex(x, y, width), width) == y <==> 0 <= x < width
  {
    if 0 <= x < width {
      DivModUnique(x, y, width);
    }
  }

  lemma DivModUnique(x: int, y: int, width: int)
    requires 0 <= x < width
    ensures (x + y * width) / width == y && (x + y * width) % width == x
  {
    var t := x + y * width;
    var q, r := t / width, t % width;
    assert (q - y) * width == x - r;
    MultipleIsFar(q - y, width);
  }

  lemma MultipleIsFar(k: int, width: int)
    requires width > 0
    ensures k >= 1 ==> k * width >= width
    ensures k <= -1 ==> k * width <= -width
  {
  }

  lemma CoordinatesEncode(tile: int, width: int)
    requires width > 0
    ensures TileIndex(X(tile, width), Y(tile, width), width) == tile && 0 <= X(tile, width) < width
  {
  }

  // ---------------------------------------------------------------- one order

  /**
  From any tile, known or not, to any destination: the order names no direction exactly when the
  unit is there, and else the neighbour it names is exactly one closer, on the way.
  */
  lemma OrderBringsCloser(srcTile: int, destX: int, destY: int, width: int)
    requires width > 0
    ensures
      var x, y, dir := StartX(srcTile, width), StartY(srcTile, width), MoveOrder(srcTile, destX, destY, width).dir;
      && -1 <= dir < 8
      && (dir == -1 <==> x == destX && y == destY)
      && (dir != -1 ==>
            && Steps(x + DIR_DX[dir], y + DIR_DY[dir], destX, destY) == Steps(x, y, destX, destY) - 1
            && Between(x, x + DIR_DX[dir], destX) && Between(y, y + DIR_DY[dir], destY))
  {
    hide X, Y;
    var cx, cy := Clamp(destX - StartX(srcTile, width)), Clamp(destY - StartY(srcTile, width));
    var dir := Direction(cx, cy);
    assert dir != -1 ==> DIR_DX[dir] == cx && DIR_DY[dir] == cy;
  }

  /** The eight directions are counted row by row from the north-west, leaving out the middle. */
  lemma DirectionIs(dx: int, dy: int)
    requires -1 <= dx <= 1 && -1 <= dy <= 1
    ensures
      var place := 3 * (dy + 1) + (dx + 1);
      Direction(dx, dy) == if place < 4 then place else if place == 4 then -1 else place - 1
  {
  }

  /** The order is for the unit's own tile, and names the destination by its index. */
  lemma OrderNamesTiles(srcTile: int, destX: int, destY: int, width: int)
    requires width > 0
    ensures
      var order := MoveOrder(srcTile, destX, destY, width);
      && order.srcTile == srcTile && order.destTile == destX + destY * width
      && (0 <= destX < width ==> order.destTile % width == destX && order.destTile / width == destY)
  {
    IndexDecodesIff(destX, destY, width);
  }

  /** Between tiles of the map, following the order leads to that neighbour's tile. */
  lemma FollowBringsCloser(tile: nat, destX: int, destY: int, width: int)
    requires width > 0 && 0 <= destX < width && 0 <= destY
    ensures
      var dir := MoveOrder(tile, destX, destY, width).dir;
      var next := Follow(tile, dir, width);
      && (dir == -1 <==> tile == TileIndex(destX, destY, width))
      && next >= 0
      && (dir == -1 ==> next == tile)
      && (dir != -1 ==> Distance(next, destX, destY, width) == Distance(tile, destX, destY, width) - 1)
      && Between(X(tile, width), X(next, width), destX) && Between(Y(tile, width), Y(next, width), destY)
  {
    hide X, Y, TileIndex, MoveOrder, Steps;
    var x, y, dir := X(tile, width), Y(tile, width), MoveOrder(tile, destX, destY, width).dir;
    CoordinatesEncode(tile, width);
    assert y >= 0 by { RowsAreNatural(tile, width); }
    IndexDecodesIff(destX, destY, width);
    OrderBringsCloser(tile, destX, destY, width);
    if dir != -1 {
      IndexDecodesIff(x + DIR_DX[dir], y + DIR_DY[dir], width);
      NotNegative(x + DIR_DX[dir], y + DIR_DY[dir], width);
    }
  }

  lemma RowsAreNatural(tile: nat, width: int)
    requires width > 0
    ensures Y(tile, width) >= 0
  {
  }

  lemma NotNegative(x: int, y: int, width: int)
    requires x >= 0 && y >= 0 && width > 0
    ensures TileIndex(x, y, width) >= 0
  {
  }

  // ---------------------------------------------------------------- the whole walk

  /**
  After `n` orders the unit is `n` closer, and never outside the rectangle between start and
  goal: it arrives after exactly as many orders as it was steps away, and then stays.
  */
  lemma {:induction false} WalkArrives(tile: nat, destX: int, destY: int, width: int, n: nat)
    requires width > 0 && 0 <= destX < width && 0 <= destY
    ensures
      var at := Walk(tile, destX, destY, width, n);
      var d := Distance(tile, destX, destY, width);
      && at >= 0
      && Distance(at, destX, destY, width) == Max(d - n, 0)
      && (at == TileIndex(destX, destY, width) <==> n >= d)
      && Between(X(tile, width), X(at, width), destX) && Between(Y(tile, width), Y(at, width), destY)
    decreases n
  {
    if n == 0 {
      CoordinatesEncode(tile, width);
      IndexDecodesIff(destX, destY, width);
    } else {
      FollowBringsCloser(tile, destX, destY, width);
      IndexDecodesIff(destX, destY, width);
      WalkArrives(Follow(tile, MoveOrder(tile, destX, destY, width).dir, width), destX, destY, width, n - 1);
    }
  }

  /** The orders come to an end exactly when the destination is a tile. */
  lemma WalkEndsIff(tile: nat, destX: int, destY: int, width: int)
    requires width > 0
    ensures
      (exists n: nat :: MoveOrder(Walk(tile, destX, destY, width, n), destX, destY, width).dir == -1) <==>
      0 <= destX < width && 0 <= destY
  {
    hide MoveOrder, Walk;
    if 0 <= destX < width && 0 <= destY {
      var n := Distance(tile, destX, destY, width);
      WalkArrives(tile, destX, destY, width, n);
      FollowBringsCloser(Walk(tile, destX, destY, width, n), destX, destY, width);
    }
    forall n: nat | MoveOrder(Walk(tile, destX, destY, width, n), destX, destY, width).dir == -1
      ensures 0 <= destX < width && 0 <= destY
    {
      var at := Walk(tile, destX, destY, width, n);
      OrderBringsCloser(at, destX, destY, width);
      CoordinatesEncode(at, width);
      if at >= 0 { RowsAreNatural(at, width); }
    }
  }
}
