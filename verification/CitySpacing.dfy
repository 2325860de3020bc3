/**
The minimum distance between cities (freeciv-proxy/civcom.py, `can_city_be_founded_at`).
*/
module CitySpacing {
  import opened Options
  import opened UnitWalk

  /** `minDist` is `citymindist`; the wrap flags are those of the stored map information. */
  datatype Grid = Grid(width: int, height: int, wrapX: bool, wrapY: bool, minDist: int)

  function Min(a: int, b: int): int {
    if a < b then a else b
  }

  function AxisDistance(a: int, b: int, size: int, wrap: bool): int {
    var d := Abs(a - b);
    if wrap then Min(d, size - d) else d
  }

  function CityDistance(g: Grid, a: int, b: int): int
    requires g.width > 0
  {
    Max(AxisDistance(X(a, g.width), X(b, g.width), g.width, g.wrapX),
        AxisDistance(Y(a, g.width), Y(b, g.width), g.height, g.wrapY))
  }

  datatype Verdict = Allowed | OnOcean | TooClose(city: nat, distance: int)

  /** Known cities in order; a city whose tile is not known is passed over. */
  function FirstTooClose(g: Grid, cities: seq<Option<int>>, tile: int, i: nat): Verdict
    requires g.width > 0 && i <= |cities|
    decreases |cities| - i
  {
    if i == |cities| then Allowed
    else if cities[i].Some? && CityDistance(g, tile, cities[i].value) < g.minDist
    then TooClose(i, CityDistance(g, tile, cities[i].value))
    else FirstTooClose(g, cities, tile, i + 1)
  }

  function CanFound(g: Grid, cities: seq<Option<int>>, tile: int, ocean: bool): Verdict
    requires g.width > 0
  {
    if ocean then OnOcean else FirstTooClose(g, cities, tile, 0)
  }

  // ---------------------------------------------------------------- distance on a wrapped map

  /** A translate of the map; an axis that does not wrap has only one. */
  predicate Translate(wrap: bool, k: int) {
    wrap || k == 0
  }

  /** The wrapped axis distance is the least over all translates, and some translate attains it. */
  lemma AxisDistanceIsLeast(a: int, b: int, size: int, wrap: bool)
    requires 0 <= a < size && 0 <= b < size
    ensures forall k | Translate(wrap, k) :: AxisDistance(a, b, size, wrap) <= Abs(a - b + k * size)
    ensures exists k :: Translate(wrap, k) && AxisDistance(a, b, size, wrap) == Abs(a - b + k * size)
    ensures AxisDistance(a, b, size, wrap) == AxisDistance(b, a, size, wrap)
  {
    forall k | Translate(wrap, k) ensures AxisDistance(a, b, size, wrap) <= Abs(a - b + k * size) {
      MultipleIsFar(k, size);
    }
    var k := if !wrap || Abs(a - b) <= size - Abs(a - b) then 0 else if a >= b then -1 else 1;
    assert k * size == (if k == 0 then 0 else if k == 1 then size else -size);
    assert Translate(wrap, k) && AxisDistance(a, b, size, wrap) == Abs(a - b + k * size);
  }

  predicate OnMap(g: Grid, tile: int) {
    g.width > 0 && 0 <= tile && 0 <= Y(tile, g.width) < g.height
  }

  /** No two translates of the tiles are closer than the minimum. */
  ghost predicate Apart(g: Grid, a: int, b: int)
    requires g.width > 0
  {
    forall kx, ky | Translate(g.wrapX, kx) && Translate(g.wrapY, ky) ::
      g.minDist <= Max(Abs(X(a, g.width) - X(b, g.width) + kx * g.width),
                       Abs(Y(a, g.width) - Y(b, g.width) + ky * g.height))
  }

  /** On the map, the distance the check computes is below the minimum iff some translates are. */
  lemma ApartIff(g: Grid, a: int, b: int)
    requires OnMap(g, a) && OnMap(g, b)
    ensures CityDistance(g, a, b) >= g.minDist <==> Apart(g, a, b)
    ensures CityDistance(g, a, b) == CityDistance(g, b, a)
  {
    var w := g.width;
    AxisDistanceIsLeast(X(a, w), X(b, w), w, g.wrapX);
    AxisDistanceIsLeast(Y(a, w), Y(b, w), g.height, g.wrapY);
    var kx :| Translate(g.wrapX, kx) && AxisDistance(X(a, w), X(b, w), w, g.wrapX) == Abs(X(a, w) - X(b, w) + kx * w);
    var ky :| Translate(g.wrapY, ky) &&
              AxisDistance(Y(a, w), Y(b, w), g.height, g.wrapY) == Abs(Y(a, w) - Y(b, w) + ky * g.height);
  }

  // ---------------------------------------------------------------- the check

  lemma {:induction false} FirstTooCloseIff(g: Grid, cities: seq<Option<int>>, tile: int, i: nat)
    requires g.width > 0 && i <= |cities|
    ensures FirstTooClose(g, cities, tile, i) == Allowed <==>
            forall j | i <= j < |cities| :: cities[j].Some? ==> CityDistance(g, tile, cities[j].value) >= g.minDist
    decreases |cities| - i
  {
    if i < |cities| {
      FirstTooCloseIff(g, cities, tile, i + 1);
    }
  }

  ghost predicate Known(g: Grid, cities: seq<Option<int>>) {
    forall i | 0 <= i < |cities| :: cities[i].Some? ==> OnMap(g, cities[i].value)
  }

  /** A founding is allowed exactly on land with every known city far enough away on the wrapped map. */
  lemma AllowedIff(g: Grid, cities: seq<Option<int>>, tile: int, ocean: bool)
    requires OnMap(g, tile) && Known(g, cities)
    ensures CanFound(g, cities, tile, ocean) == Allowed <==>
            !ocean && forall i | 0 <= i < |cities| :: cities[i].Some? ==> Apart(g, tile, cities[i].value)
  {
    FirstTooCloseIff(g, cities, tile, 0);
    forall i | 0 <= i < |cities| && cities[i].Some?
      ensures CityDistance(g, tile, cities[i].value) >= g.minDist <==> Apart(g, tile, cities[i].value)
    {
      ApartIff(g, tile, cities[i].value);
    }
  }

  lemma {:induction false} FirstIsFirst(g: Grid, cities: seq<Option<int>>, tile: int, i: nat)
    requires g.width > 0 && i <= |cities|
    ensures
      match FirstTooClose(g, cities, tile, i)
      case TooClose(j, d) =>
        && i <= j < |cities| && cities[j].Some? && d == CityDistance(g, tile, cities[j].value) && d < g.minDist
        && forall k | i <= k < j :: cities[k].Some? ==> CityDistance(g, tile, cities[k].value) >= g.minDist
      case OnOcean => false
      case Allowed => true
    decreases |cities| - i
  {
    if i < |cities| {
      FirstIsFirst(g, cities, tile, i + 1);
    }
  }

  /** The reason given: the ocean exactly if the tile is ocean, else the first city too close and its distance. */
  lemma ReasonIs(g: Grid, cities: seq<Option<int>>, tile: int, ocean: bool)
    requires g.width > 0
    ensures
      match CanFound(g, cities, tile, ocean)
      case OnOcean => ocean
      case Allowed => !ocean
      case TooClose(j, d) =>
        && !ocean && j < |cities| && cities[j].Some? && d == CityDistance(g, tile, cities[j].value) && d < g.minDist
        && forall k | 0 <= k < j :: cities[k].Some? ==> CityDistance(g, tile, cities[k].value) >= g.minDist
  {
    FirstIsFirst(g, cities, tile, 0);
  }

  /** The cities after a list of attempts, each founded only if the check allows it. */
  function FoundAll(g: Grid, cities: seq<Option<int>>, attempts: seq<(int, bool)>): seq<Option<int>>
    requires g.width > 0
    decreases |attempts|
  {
    if attempts == [] then cities
    else
      var (tile, ocean) := attempts[0];
      FoundAll(g, if CanFound(g, cities, tile, ocean) == Allowed then cities + [Some(tile)] else cities, attempts[1..])
  }

  ghost predicate Spaced(g: Grid, cities: seq<Option<int>>)
    requires g.width > 0
  {
    forall i, j | 0 <= i < |cities| && 0 <= j < |cities| && i != j ::
      cities[i].Some? && cities[j].Some? ==> Apart(g, cities[i].value, cities[j].value)
  }

  ghost predicate AllOnMap(g: Grid, attempts: seq<(int, bool)>) {
    forall i | 0 <= i < |attempts| :: OnMap(g, attempts[i].0)
  }

  lemma FoundingKeepsSpaced(g: Grid, cities: seq<Option<int>>, tile: int, ocean: bool)
    requires OnMap(g, tile) && Known(g, cities) && Spaced(g, cities) && CanFound(g, cities, tile, ocean) == Allowed
    ensures Known(g, cities + [Some(tile)]) && Spaced(g, cities + [Some(tile)])
  {
    hide Apart;
    AllowedIff(g, cities, tile, ocean);
    forall i | 0 <= i < |cities| && cities[i].Some? ensures Apart(g, cities[i].value, tile) {
      ApartIff(g, tile, cities[i].value);
      ApartIff(g, cities[i].value, tile);
    }
  }

  /** Whatever is attempted, well-spaced cities stay well spaced. */
  lemma {:induction false} SpacingIsKept(g: Grid, cities: seq<Option<int>>, attempts: seq<(int, bool)>)
    requires g.width > 0 && Known(g, cities) && Spaced(g, cities)
    requires AllOnMap(g, attempts)
    ensures Spaced(g, FoundAll(g, cities, attempts))
    decreases |attempts|
  {
    hide Apart, CanFound;
    if attempts != [] {
      var (tile, ocean) := attempts[0];
      if CanFound(g, cities, tile, ocean) == Allowed {
        FoundingKeepsSpaced(g, cities, tile, ocean);
        SpacingIsKept(g, cities + [Some(tile)], attempts[1..]);
      } else {
        SpacingIsKept(g, cities, attempts[1..]);
      }
    }
  }

  /** The map information as the program stores it: without the flags that say where it wraps. */
  function Stored(g: Grid): Grid {
    g.(wrapX := false, wrapY := false)
  }

  predicate SameAnswer(g: Grid, a: int, b: int)
    requires g.width > 0
  {
    CityDistance(Stored(g), a, b) >= g.minDist <==> CityDistance(g, a, b) >= g.minDist
  }

  /** The minimum is trivial, or reaches across every axis that wraps. */
  predicate FlagsDoNotMatter(g: Grid) {
    g.minDist <= 1 || ((g.wrapX ==> g.width <= g.minDist) && (g.wrapY ==> g.height <= g.minDist))
  }

  /**
  Without the flags the check still answers rightly everywhere on the map exactly when the minimum
  is trivial or reaches across every axis that wraps; otherwise cities that touch across the seam pass.
  */
  lemma FlagsMayBeMissingIff(g: Grid)
    requires g.width > 0 && g.height > 0
    ensures (forall a, b | OnMap(g, a) && OnMap(g, b) :: SameAnswer(g, a, b)) <==> FlagsDoNotMatter(g)
  {
    if FlagsDoNotMatter(g) {
      forall a, b | OnMap(g, a) && OnMap(g, b) ensures SameAnswer(g, a, b) {
        CoordinatesEncode(a, g.width);
        CoordinatesEncode(b, g.width);
      }
    } else {
      var column := if g.wrapX && g.minDist < g.width then g.width - 1 else 0;
      var row := if column == 0 then g.height - 1 else 0;
      var last := TileIndex(column, row, g.width);
      IndexDecodesIff(0, 0, g.width);
      IndexDecodesIff(column, row, g.width);
      NotNegative(column, row, g.width);
      assert OnMap(g, 0) && OnMap(g, last) && !SameAnswer(g, last, 0);
    }
  }

  /** Whatever is attempted from well-spaced cities, what the check without flags accepts stays well spaced. */
  ghost predicate SpacingIsSafe(g: Grid)
    requires g.width > 0
  {
    forall cities, attempts | Known(g, cities) && Spaced(g, cities) && AllOnMap(g, attempts) ::
      Spaced(g, FoundAll(Stored(g), cities, attempts))
  }

  lemma SameVerdict(g: Grid, cities: seq<Option<int>>, tile: int, ocean: bool)
    requires OnMap(g, tile) && Known(g, cities)
    requires forall a, b | OnMap(g, a) && OnMap(g, b) :: SameAnswer(g, a, b)
    ensures CanFound(Stored(g), cities, tile, ocean) == Allowed <==> CanFound(g, cities, tile, ocean) == Allowed
  {
    hide CityDistance;
    FirstTooCloseIff(g, cities, tile, 0);
    FirstTooCloseIff(Stored(g), cities, tile, 0);
    forall i | 0 <= i < |cities| && cities[i].Some? ensures SameAnswer(g, tile, cities[i].value) {}
  }

  lemma {:induction false} SameFoundings(g: Grid, cities: seq<Option<int>>, attempts: seq<(int, bool)>)
    requires g.width > 0 && Known(g, cities) && AllOnMap(g, attempts)
    requires forall a, b | OnMap(g, a) && OnMap(g, b) :: SameAnswer(g, a, b)
    ensures FoundAll(Stored(g), cities, attempts) == FoundAll(g, cities, attempts)
    decreases |attempts|
  {
    hide CanFound, SameAnswer, Stored;
    if attempts != [] {
      var (tile, ocean) := attempts[0];
      assert Stored(g).width == g.width by { StoredWidth(g); }
      SameVerdict(g, cities, tile, ocean);
      var next := if CanFound(g, cities, tile, ocean) == Allowed then cities + [Some(tile)] else cities;
      SameFoundings(g, next, attempts[1..]);
    }
  }

  lemma StoredWidth(g: Grid)
    ensures Stored(g).width == g.width
  {
  }

  lemma StoredIsFarther(g: Grid, a: int, b: int)
    requires OnMap(g, a) && OnMap(g, b)
    ensures CityDistance(g, a, b) <= CityDistance(Stored(g), a, b)
  {
  }

  /** Two cities that the check without flags lets stand too close. */
  lemma SeamPairIsFounded(g: Grid, a: int, b: int)
    requires OnMap(g, a) && OnMap(g, b) && !SameAnswer(g, a, b)
    ensures !SpacingIsSafe(g)
  {
    hide Apart, Y;
    var cities, attempts := [Some(b)], [(a, false)];
    StoredIsFarther(g, a, b);
    ApartIff(g, b, a);
    FirstTooCloseIff(Stored(g), cities, a, 0);
    assert attempts[1..] == [];
    var founded := FoundAll(Stored(g), cities, attempts);
    assert founded == FoundAll(Stored(g), cities + [Some(a)], []) == [Some(b), Some(a)];
    assert founded[0].value == b && founded[1].value == a && !Spaced(g, founded);
    assert Known(g, cities) && Spaced(g, cities) && AllOnMap(g, attempts);
  }

  /** So foundings keep the cities of a wrapping map apart exactly when the flags do not matter. */
  lemma SpacingIsSafeIff(g: Grid)
    requires g.width > 0 && g.height > 0
    ensures SpacingIsSafe(g) <==> FlagsDoNotMatter(g)
  {
    hide SameAnswer, Spaced, FoundAll, Known, OnMap, FlagsDoNotMatter;
    FlagsMayBeMissingIff(g);
    if FlagsDoNotMatter(g) {
      forall cities, attempts | Known(g, cities) && Spaced(g, cities) && AllOnMap(g, attempts)
        ensures Spaced(g, FoundAll(Stored(g), cities, attempts))
      {
        SameFoundings(g, cities, attempts);
        SpacingIsKept(g, cities, attempts);
      }
    } else {
      var a, b :| OnMap(g, a) && OnMap(g, b) && !SameAnswer(g, a, b);
      SeamPairIsFounded(g, a, b);
    }
  }
}
