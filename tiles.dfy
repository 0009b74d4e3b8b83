/** The tile grid the dark matter spreads over: tile types, the edge-sharing test
    used to find a tile's neighbours, and the randomised delay between two
    spreads. Tiles are unit cells `(col, row)`; the map's tile size is a positive
    scale factor that preserves every equality the neighbour test compares. */
module Tiles {
  import opened Common

  /** The `type` property of a map tile: the three types the game tests for,
      and `OtherKind(name)` for any other type string (see `NamedKind`). */
  datatype TileKind = Solid | Darkmatter | Source | OtherKind(name: string)

  /** `OtherKind` never carries one of the three names the game tests for. */
  predicate NamedKind(k: TileKind)
  {
    k.OtherKind? ==> k.name != "solid" && k.name != "darkmatter" && k.name != "source"
  }

  /** The `type` string of a kind. */
  function KindName(k: TileKind): string
  {
    match k
    case Solid => "solid"
    case Darkmatter => "darkmatter"
    case Source => "source"
    case OtherKind(name) => name
  }

  /** The kind a `type` string denotes. */
  function KindOf(name: string): (k: TileKind)
    ensures NamedKind(k)
  {
    if name == "solid" then Solid
    else if name == "darkmatter" then Darkmatter
    else if name == "source" then Source
    else OtherKind(name)
  }

  /** Strings and kinds correspond one to one: reading a type string and writing
      it back gives the string, and every kind `NamedKind` allows is read back
      from its name. */
  lemma KindRoundTrip(name: string, k: TileKind)
    ensures KindName(KindOf(name)) == name
    ensures NamedKind(k) ==> KindOf(KindName(k)) == k
  {
  }

  /** The string tests of the spread loop are tests on the kind: `type in
      ["darkmatter", "source"]` is `Spreadable`, `type == "solid"` is `Solid`. */
  lemma KindTests(name: string)
    ensures Spreadable(KindOf(name)) <==> name in ["darkmatter", "source"]
    ensures KindOf(name) == Solid <==> name == "solid"
  {
  }

  /** A tile's texture: the one loaded with the map, or the dark matter texture. */
  datatype TileTexture = MapTexture(gid: nat) | DarkmatterTexture

  datatype Tile = Tile(col: int, row: int, kind: TileKind, texture: TileTexture)

  // Edges and centre of a tile, in tile units
  function LeftEdge(b: Tile): int { b.col }
  function RightEdge(b: Tile): int { b.col + 1 }
  function BottomEdge(b: Tile): int { b.row }
  function TopEdge(b: Tile): int { b.row + 1 }
  function CenterX(b: Tile): real { b.col as real + 0.5 }
  function CenterY(b: Tile): real { b.row as real + 0.5 }

  /** The edge test of `find_adjacent_blocks`: `o` touches `b` on its right, left,
      top or bottom edge, with the two centres in line. */
  predicate Touching(b: Tile, o: Tile)
  {
    || (RightEdge(b) == LeftEdge(o) && CenterY(b) == CenterY(o))
    || (LeftEdge(b) == RightEdge(o) && CenterY(b) == CenterY(o))
    || (TopEdge(b) == BottomEdge(o) && CenterX(b) == CenterX(o))
    || (BottomEdge(b) == TopEdge(o) && CenterX(b) == CenterX(o))
  }

  /** Reference definition: the cells share a full edge, i.e. same row and
      neighbouring column, or same column and neighbouring row. */
  predicate Orthogonal(b: Tile, o: Tile)
  {
    || (b.row == o.row && (o.col == b.col + 1 || o.col == b.col - 1))
    || (b.col == o.col && (o.row == b.row + 1 || o.row == b.row - 1))
  }

  /** The edge test picks exactly the orthogonal neighbours; it is symmetric and
      never holds between two tiles on the same cell. */
  lemma TouchingIsOrthogonal(b: Tile, o: Tile)
    ensures Touching(b, o) <==> Orthogonal(b, o)
    ensures Touching(b, o) <==> Touching(o, b)
    ensures b.col == o.col && b.row == o.row ==> !Touching(b, o)
  {
    assert CenterY(b) == CenterY(o) <==> b.row == o.row;
    assert CenterX(b) == CenterX(o) <==> b.col == o.col;
  }

  predicate Spreadable(k: TileKind)
  {
    k == Darkmatter || k == Source
  }

  /** A solid tile turned into dark matter, texture included. */
  function Convert(b: Tile): Tile
  {
    b.(kind := Darkmatter, texture := DarkmatterTexture)
  }

  /** `b` becomes `c` by a spread step. */
  predicate ConvertedTo(b: Tile, c: Tile)
  {
    b.kind == Solid && c == Convert(b)
  }

  predicate Increasing(s: seq<nat>)
  {
    forall m, n :: 0 <= m < n < |s| ==> s[m] < s[n]
  }

  /** The indices `k < n`, in list order, of the tiles `find_adjacent_blocks`
      reports for tile `i`. */
  function AdjacentUpTo(tiles: seq<Tile>, i: nat, n: nat): seq<nat>
    requires i < |tiles| && n <= |tiles|
    decreases n
  {
    if n == 0 then []
    else
      AdjacentUpTo(tiles, i, n - 1)
      + (if n - 1 != i && Touching(tiles[i], tiles[n - 1]) then [n - 1] else [])
  }

  function AdjacentBlocks(tiles: seq<Tile>, i: nat): seq<nat>
    requires i < |tiles|
  {
    AdjacentUpTo(tiles, i, |tiles|)
  }

  /** The list holds, in increasing order, exactly the other tiles before `n`
      that touch tile `i`. */
  lemma {:induction false} AdjacentUpToMembers(tiles: seq<Tile>, i: nat, n: nat)
    requires i < |tiles| && n <= |tiles|
    ensures var adj := AdjacentUpTo(tiles, i, n);
      && (forall k: nat :: k in adj <==> k < n && k != i && Touching(tiles[i], tiles[k]))
      && Increasing(adj)
      && (forall m :: 0 <= m < |adj| ==> adj[m] < n)
    decreases n
  {
    if n > 0 {
      AdjacentUpToMembers(tiles, i, n - 1);
    }
  }

  /** The neighbours `find_adjacent_blocks` reports are, in increasing order,
      exactly the other tiles sharing an edge with tile `i`. */
  lemma AdjacentBlocksOrthogonal(tiles: seq<Tile>, i: nat)
    requires i < |tiles|
    ensures forall k: nat :: k in AdjacentBlocks(tiles, i) <==> k < |tiles| && k != i && Orthogonal(tiles[i], tiles[k])
    ensures Increasing(AdjacentBlocks(tiles, i))
    ensures forall m :: 0 <= m < |AdjacentBlocks(tiles, i)| ==> AdjacentBlocks(tiles, i)[m] < |tiles|
  {
    AdjacentUpToMembers(tiles, i, |tiles|);
    forall k: nat | k < |tiles|
      ensures Touching(tiles[i], tiles[k]) <==> Orthogonal(tiles[i], tiles[k])
    {
      TouchingIsOrthogonal(tiles[i], tiles[k]);
    }
  }

  /** The list comprehension keeping the solid tiles among `idx`, in order. */
  function SolidAmong(tiles: seq<Tile>, idx: seq<nat>): (solid: seq<nat>)
    requires forall m :: 0 <= m < |idx| ==> idx[m] < |tiles|
    ensures forall k: nat :: k in solid <==> k in idx && tiles[k].kind == Solid
    ensures forall m :: 0 <= m < |solid| ==> solid[m] < |tiles|
    decreases |idx|
  {
    if idx == [] then []
    else
      (if tiles[idx[0]].kind == Solid then [idx[0]] else []) + SolidAmong(tiles, idx[1..])
  }

  /** Some other tile touching tile `i` is solid. */
  predicate HasSolidNeighbour(tiles: seq<Tile>, i: nat)
    requires i < |tiles|
  {
    exists j :: 0 <= j < |tiles| && j != i && tiles[j].kind == Solid && Touching(tiles[i], tiles[j])
  }

  /** `DARKMATTER_DECAY_RATE * (1 + DARKMATTER_DECAY_RATE_MARGIN * (2 * r - 1))`
      for a draw `r` of the random generator. */
  function SpreadDelay(t: Tuning, r: real): real
  {
    t.decayRate * (1.0 + t.decayMargin * (2.0 * r - 1.0))
  }

  /** For a draw in `[0, 1)` the delay is never below `RATE * (1 - MARGIN)` and,
      when `RATE * MARGIN > 0`, always below `RATE * (1 + MARGIN)`. */
  lemma SpreadDelayBounds(t: Tuning, r: real)
    requires 0.0 <= r < 1.0
    requires 0.0 <= t.decayRate * t.decayMargin
    ensures t.decayRate * (1.0 - t.decayMargin) <= SpreadDelay(t, r)
    ensures 0.0 < t.decayRate * t.decayMargin ==> SpreadDelay(t, r) < t.decayRate * (1.0 + t.decayMargin)
  {
    var rm := t.decayRate * t.decayMargin;
    assert SpreadDelay(t, r) == t.decayRate + rm * (2.0 * r - 1.0);
    assert rm * (2.0 * r) >= 0.0;
    if 0.0 < rm {
      assert rm * (2.0 * r) < rm * 2.0;
    }
  }

  /** The tuning under which every delay a draw in `[0, 1)` gives is positive,
      so the schedule can never place the next spread at or before the current
      one: the delay is `(1 - r) * RATE * (1 - MARGIN) + r * RATE * (1 + MARGIN)`,
      positive at `r = 0` and not negative as `r` approaches 1. */
  predicate OneSpreadPerPass(t: Tuning)
  {
    t.decayRate * (1.0 - t.decayMargin) > 0.0 && t.decayRate * (1.0 + t.decayMargin) >= 0.0
  }

  /** The delay as the weighted mean of its two end values. */
  lemma SpreadDelayBetweenEnds(t: Tuning, r: real)
    ensures SpreadDelay(t, r) == (1.0 - r) * (t.decayRate * (1.0 - t.decayMargin)) + r * (t.decayRate * (1.0 + t.decayMargin))
  {
    var a, m := t.decayRate, t.decayMargin;
    calc {
      (1.0 - r) * (a * (1.0 - m)) + r * (a * (1.0 + m));
      a * (1.0 - m) - r * (a * (1.0 - m)) + r * (a * (1.0 + m));
      a * (1.0 - m) + r * (a * (1.0 + m) - a * (1.0 - m));
      a * (1.0 - m) + r * (2.0 * a * m);
      a * (1.0 + m * (2.0 * r - 1.0));
    }
  }

  /** A weighted mean of a positive and a non-negative value, with the first
      weight positive, is positive. */
  lemma MeanPositive(lo: real, hi: real, r: real)
    requires lo > 0.0 && hi >= 0.0 && 0.0 <= r < 1.0
    ensures (1.0 - r) * lo + r * hi > 0.0
  {
    assert (1.0 - r) * lo > 0.0;
    assert r * hi >= 0.0;
  }

  /** Between a positive and a negative value the weighted mean is zero at a
      weight in `[0, 1)`. */
  lemma MeanCrossesZero(lo: real, hi: real) returns (r: real)
    requires lo > 0.0 && hi < 0.0
    ensures 0.0 <= r < 1.0 && (1.0 - r) * lo + r * hi == 0.0
  {
    r := lo / (lo - hi);
    assert r * (lo - hi) == lo;
    assert 0.0 <= r;
    assert r < 1.0;
    assert (1.0 - r) * lo + r * hi == lo - r * (lo - hi);
  }

  /** Under that tuning a draw in `[0, 1)` gives a positive delay. */
  lemma DelayPositiveAt(t: Tuning, r: real)
    requires OneSpreadPerPass(t)
    requires 0.0 <= r < 1.0
    ensures SpreadDelay(t, r) > 0.0
  {
    SpreadDelayBetweenEnds(t, r);
    MeanPositive(t.decayRate * (1.0 - t.decayMargin), t.decayRate * (1.0 + t.decayMargin), r);
  }

  /** Under any other tuning some draw in `[0, 1)` gives a delay that is not
      positive. */
  lemma DelayNotPositiveSomewhere(t: Tuning) returns (r: real)
    requires !OneSpreadPerPass(t)
    ensures 0.0 <= r < 1.0 && SpreadDelay(t, r) <= 0.0
  {
    var lo, hi := t.decayRate * (1.0 - t.decayMargin), t.decayRate * (1.0 + t.decayMargin);
    if lo <= 0.0 {
      r := 0.0;
    } else {
      r := MeanCrossesZero(lo, hi);
    }
    SpreadDelayBetweenEnds(t, r);
  }

  /** Every delay a draw in `[0, 1)` gives is positive exactly under that
      tuning. */
  lemma SpreadDelayPositive(t: Tuning)
    ensures OneSpreadPerPass(t) <==> forall r :: 0.0 <= r < 1.0 ==> SpreadDelay(t, r) > 0.0
  {
    if OneSpreadPerPass(t) {
      forall r | 0.0 <= r < 1.0
        ensures SpreadDelay(t, r) > 0.0
      {
        DelayPositiveAt(t, r);
      }
    } else {
      var r := DelayNotPositiveSomewhere(t);
    }
  }
}
