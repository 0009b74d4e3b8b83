/** The game window's own state and logic: the simulation clock, the input
    buffer, the tile list with its neighbour search, and the dark matter spread
    pass with its schedule. The player sprite lives in module Sprites, which
    refers back to this window, and the per-frame sequence that drives both is
    in module Frame. */
module Game {
  import opened Common
  import opened Input
  import opened Tiles

  /** `order` visits every one of the `n` tiles (a permutation drawn by `sample`). */
  predicate VisitsAll(order: seq<nat>, n: nat)
  {
    && |order| == n
    && (forall k :: 0 <= k < |order| ==> order[k] < n)
    && (forall i :: 0 <= i < n ==> i in order)
  }

  /** A sprite list after `remove_from_sprite_lists` on `x`: `x` is gone, every
      other entry stays, in order. */
  function Without(list: seq<object>, x: object): (r: seq<object>)
    ensures x !in r
    ensures forall i :: 0 <= i < |r| ==> r[i] in list
    ensures forall i :: 0 <= i < |list| && list[i] != x ==> list[i] in r
    ensures x !in list ==> r == list
    ensures |r| <= |list|
    ensures multiset(r) == multiset(list)[x := 0]
    decreases |list|
  {
    if list == [] then []
    else
      var rest := Without(list[1..], x);
      assert list == [list[0]] + list[1..];
      assert multiset(list) == multiset{list[0]} + multiset(list[1..]);
      if list[0] == x then rest
      else
        assert multiset([list[0]] + rest) == multiset{list[0]} + multiset(rest);
        [list[0]] + rest
  }

  /** Removal works piece by piece, so the entries that stay keep their order:
      whatever was before another entry in the list is still before it. */
  lemma {:induction false} WithoutConcat(p: seq<object>, q: seq<object>, x: object)
    ensures Without(p + q, x) == Without(p, x) + Without(q, x)
    decreases |p|
  {
    if p == [] {
      assert p + q == q;
    } else {
      assert (p + q)[1..] == p[1..] + q;
      WithoutConcat(p[1..], q, x);
    }
  }

  /** Removing twice is removing once, so a second wall contact reported for an
      already removed bullet changes nothing. */
  lemma WithoutIdempotent(list: seq<object>, x: object)
    ensures Without(Without(list, x), x) == Without(list, x)
  {
  }

  /** What one spread pass at clock `now`, with the draws `rs`, does to the tiles
      (`before` to `after`) and to the schedule (`last`, `next` to `last'`,
      `next'`). */
  ghost predicate SpreadEffect(t: Tuning, now: real, rs: seq<real>, before: seq<Tile>, after: seq<Tile>,
                               last: Option<real>, next: Option<real>, last': Option<real>, next': Option<real>)
  {
    && next.Some? && |after| == |before|
    // only solid tiles change, and only into dark matter
    && (forall j :: 0 <= j < |before| ==> after[j] == before[j] || ConvertedTo(before[j], after[j]))
    // a converted tile touches a dark matter or source tile
    && (forall j :: 0 <= j < |after| && after[j] != before[j] ==>
          exists m :: 0 <= m < |after| && m != j && Spreadable(after[m].kind) && Touching(after[m], after[j]))
    // nothing happens before the scheduled time
    && (now <= next.value ==> after == before && next' == next && last' == last)
    // the schedule moves exactly when a tile converts
    && (after == before ==> next' == next && last' == last)
    && (after != before ==> last' == Some(now) && Rescheduled(t, now, rs, next'))
    // with positive delays, at most one tile converts
    && (OneSpreadPerPass(t) ==> forall j1, j2 :: 0 <= j1 < j2 < |after| ==>
          after[j1] == before[j1] || after[j2] == before[j2])
    // past the scheduled time, some tile converts if any can
    && (now > next.value ==>
          (exists i :: 0 <= i < |before| && Spreadable(before[i].kind) && HasSolidNeighbour(before, i)) ==>
          after != before)
  }

  /** `next` is `now` plus the delay for one of the draws `rs`. */
  ghost predicate Rescheduled(t: Tuning, now: real, rs: seq<real>, next: Option<real>)
  {
    exists k :: 0 <= k < |rs| && next == Some(now + SpreadDelay(t, rs[k]))
  }

  /** `cur` comes from `orig` by turning solid tiles into dark matter, each one
      next to the dark matter or source tile `src[j]`. */
  ghost predicate SpreadFrom(orig: seq<Tile>, cur: seq<Tile>, src: seq<nat>)
  {
    && |cur| == |orig| == |src|
    && (forall j :: 0 <= j < |cur| ==> cur[j] == orig[j] || ConvertedTo(orig[j], cur[j]))
    && (forall j :: 0 <= j < |cur| && cur[j] != orig[j] ==>
          src[j] < |cur| && src[j] != j && Spreadable(cur[src[j]].kind) && Touching(cur[src[j]], cur[j]))
  }

  /** Converting a solid tile `j` next to a dark matter or source tile `i` keeps
      `SpreadFrom`, with `i` as the new tile's source. */
  lemma SpreadStep(orig: seq<Tile>, cur: seq<Tile>, src: seq<nat>, i: nat, j: nat)
    requires SpreadFrom(orig, cur, src)
    requires i < |cur| && j < |cur| && i != j
    requires Spreadable(cur[i].kind) && cur[j].kind == Solid && Touching(cur[i], cur[j])
    ensures SpreadFrom(orig, cur[j := Convert(cur[j])], src[j := i])
  {
    var cur', src' := cur[j := Convert(cur[j])], src[j := i];
    forall m | 0 <= m < |cur'| && cur'[m] != orig[m]
      ensures src'[m] < |cur'| && src'[m] != m && Spreadable(cur'[src'[m]].kind) && Touching(cur'[src'[m]], cur'[m])
    {
      if m != j {
        assert src[m] != j;
      }
    }
  }

  /** `SpreadFrom` gives each changed tile a dark matter or source neighbour. */
  lemma SpreadFromNeighbour(orig: seq<Tile>, cur: seq<Tile>, src: seq<nat>)
    requires SpreadFrom(orig, cur, src)
    ensures forall j :: 0 <= j < |cur| && cur[j] != orig[j] ==>
      exists m :: 0 <= m < |cur| && m != j && Spreadable(cur[m].kind) && Touching(cur[m], cur[j])
  {
    forall j | 0 <= j < |cur| && cur[j] != orig[j]
      ensures exists m :: 0 <= m < |cur| && m != j && Spreadable(cur[m].kind) && Touching(cur[m], cur[j])
    {
      var m := src[j];
      assert 0 <= m < |cur| && m != j && Spreadable(cur[m].kind) && Touching(cur[m], cur[j]);
    }
  }

  class GameWindow {
    const tuning: Tuning
    var globalTime: real
    var lastPressed: map<InputType, real>
    var pressedInputs: set<InputType>
    var blocks: array<Tile>
    var bulletList: seq<object>
    var lastSpread: Option<real>
    var nextSpread: Option<real>

    /** The input buffer as a value. */
    function Inputs(): InputState
      reads this
    {
      InputState(lastPressed, pressedInputs)
    }

    /** `setup` has run, so a spread time is scheduled. */
    predicate Ready()
      reads this
    {
      nextSpread.Some?
    }

    /** `__init__`: clock at zero, nothing pressed, no tiles, no schedule. */
    constructor (tuning: Tuning)
      ensures this.tuning == tuning
      ensures globalTime == 0.0 && Inputs() == InitialInputs
      ensures blocks.Length == 0 && bulletList == []
      ensures lastSpread == None && nextSpread == None
    {
      this.tuning := tuning;
      globalTime := 0.0;
      lastPressed := map[];
      pressedInputs := {};
      blocks := new Tile[0];
      bulletList := [];
      lastSpread := None;
      nextSpread := None;
    }

    /** `setup`: install the loaded map's tiles (the map loader itself is not
        modelled), clear the bullets and schedule the first spread from the
        current clock using the random draw `r`. */
    method Setup(mapTiles: seq<Tile>, r: real)
      modifies this
      ensures fresh(blocks) && blocks[..] == mapTiles
      ensures bulletList == []
      ensures lastSpread == Some(globalTime)
      ensures nextSpread == Some(globalTime + SpreadDelay(tuning, r))
      ensures Ready()
      ensures globalTime == old(globalTime) && Inputs() == old(Inputs())
    {
      blocks := new Tile[|mapTiles|](i requires 0 <= i < |mapTiles| => mapTiles[i]);
      bulletList := [];
      lastSpread := Some(globalTime);
      nextSpread := Some(globalTime + SpreadDelay(tuning, r));
    }

    /** `on_key_press`. */
    method OnKeyPress(key: int)
      modifies this`lastPressed, this`pressedInputs
      ensures Inputs() == KeyPress(old(Inputs()), key, globalTime)
    {
      if key !in ControlMap {
        return;
      }
      var a := ControlMap[key];
      lastPressed := lastPressed[a := globalTime];
      pressedInputs := pressedInputs + {a};
    }

    /** `on_key_release`. */
    method OnKeyRelease(key: int)
      modifies this`pressedInputs
      ensures Inputs() == KeyRelease(old(Inputs()), key)
    {
      if key !in ControlMap {
        return;
      }
      pressedInputs := pressedInputs - {ControlMap[key]};
    }

    /** `is_buffered`: less than the buffer duration has passed since the last
        press, a never-pressed action counting as pressed at time -1. */
    function IsBuffered(a: InputType): (r: bool)
      reads this
      ensures a in lastPressed ==> (r <==> globalTime - lastPressed[a] < tuning.inputBufferDuration)
      ensures a !in lastPressed ==> (r <==> globalTime < tuning.inputBufferDuration - 1.0)
    {
      Buffered(lastPressed, a, globalTime, tuning.inputBufferDuration)
    }

    /** `consume_buffer`. */
    method ConsumeBuffer(a: InputType)
      modifies this`lastPressed
      ensures Inputs() == Consume(old(Inputs()), a)
    {
      lastPressed := lastPressed[a := NeverPressed];
    }

    /** The clock step at the start of `on_update`. */
    method AdvanceClock(deltaTime: real)
      modifies this`globalTime
      ensures globalTime == old(globalTime) + deltaTime
      ensures deltaTime >= 0.0 ==> globalTime >= old(globalTime)
    {
      globalTime := globalTime + deltaTime;
    }

    /** `find_adjacent_blocks`: the indices, in list order, of the other tiles
        sharing an edge with tile `i`. */
    method FindAdjacentBlocks(i: nat) returns (adj: seq<nat>)
      requires i < blocks.Length
      ensures adj == AdjacentBlocks(blocks[..], i)
      ensures forall k: nat :: k in adj <==> k < blocks.Length && k != i && Orthogonal(blocks[i], blocks[k])
      ensures forall m :: 0 <= m < |adj| ==> adj[m] < blocks.Length
      ensures Increasing(adj)
    {
      ghost var tiles := blocks[..];
      var block := blocks[i];
      adj := [];
      var j := 0;
      while j < blocks.Length
        invariant j <= blocks.Length
        invariant adj == AdjacentUpTo(tiles, i, j)
      {
        var other := blocks[j];
        assert other == tiles[j] && block == tiles[i];
        if i != j && Touching(block, other) {
          adj := adj + [j];
        }
        j := j + 1;
      }
      AdjacentBlocksOrthogonal(tiles, i);
    }

    /** The solid tiles among the neighbours of tile `i`, as the spread loop
        collects them. */
    method SolidNeighbours(i: nat) returns (solid: seq<nat>)
      requires i < blocks.Length
      ensures forall k: nat :: k in solid <==>
        k < blocks.Length && k != i && blocks[k].kind == Solid && Touching(blocks[i], blocks[k])
      ensures forall m :: 0 <= m < |solid| ==> solid[m] < blocks.Length
      ensures |solid| > 0 <==> HasSolidNeighbour(blocks[..], i)
    {
      var adj := FindAdjacentBlocks(i);
      solid := SolidAmong(blocks[..], adj);
      forall k: nat | k < blocks.Length
        ensures Touching(blocks[i], blocks[k]) <==> Orthogonal(blocks[i], blocks[k])
      {
        TouchingIsOrthogonal(blocks[i], blocks[k]);
      }
      if HasSolidNeighbour(blocks[..], i) {
        ghost var w :| 0 <= w < blocks.Length && w != i && blocks[w].kind == Solid && Touching(blocks[i], blocks[w]);
        assert w in solid;
      }
      if |solid| > 0 {
        ghost var w := solid[0];
        assert w in solid;
        assert w < blocks.Length && w != i && blocks[..][w].kind == Solid && Touching(blocks[..][i], blocks[..][w]);
      }
    }

    /** One visit of the spread loop of `on_update`, to tile `i`: a dark matter
        or source tile with solid neighbours converts the neighbour at
        `choice % count` when the clock `now` is past the scheduled time, and the
        next time is drawn with `r`. Returns whether it spread, and to which tile. */
    method VisitTile(i: nat, now: real, choice: nat, r: real) returns (spread: bool, j: nat)
      requires Ready() && i < blocks.Length
      modifies blocks, this`lastSpread, this`nextSpread
      ensures Ready()
      ensures spread ==>
        && j < blocks.Length && j != i
        && Spreadable(old(blocks[i]).kind) && old(blocks[j]).kind == Solid
        && Touching(old(blocks[i]), old(blocks[j]))
        && now > old(nextSpread.value)
        && blocks[..] == old(blocks[..])[j := Convert(old(blocks[j]))]
        && lastSpread == Some(now) && nextSpread == Some(now + SpreadDelay(tuning, r))
      ensures !spread ==>
        blocks[..] == old(blocks[..]) && lastSpread == old(lastSpread) && nextSpread == old(nextSpread)
      ensures !spread && now > old(nextSpread.value) ==>
        !(Spreadable(old(blocks[i]).kind) && HasSolidNeighbour(old(blocks[..]), i))
    {
      spread, j := false, 0;
      if Spreadable(blocks[i].kind) {
        var solid := SolidNeighbours(i);
        if |solid| > 0 && now > nextSpread.value {
          j := solid[choice % |solid|];
          assert j in solid;
          spread := true;
          blocks[j] := Convert(blocks[j]);
          lastSpread := Some(now);
          nextSpread := Some(now + SpreadDelay(tuning, r));
        }
      }
    }

    /** The spread loop of `on_update`: the tiles are visited in the order
        `order` (the `sample` draw), and visit `k` uses the draws `choices[k]` and
        `rs[k]`. All calls to the clock within one pass read `now`. */
    method SpreadPass(now: real, order: seq<nat>, choices: seq<nat>, rs: seq<real>)
      requires Ready()
      requires VisitsAll(order, blocks.Length)
      requires |choices| == blocks.Length && |rs| == blocks.Length
      requires forall k :: 0 <= k < |rs| ==> 0.0 <= rs[k] < 1.0
      modifies blocks, this`lastSpread, this`nextSpread
      ensures Ready()
      ensures SpreadEffect(tuning, now, rs, old(blocks[..]), blocks[..],
                           old(lastSpread), old(nextSpread), lastSpread, nextSpread)
    {
      var n := blocks.Length;
      ghost var orig := blocks[..];
      ghost var due := now > nextSpread.value;
      ghost var converted := false;
      ghost var firstJ: nat := 0;
      ghost var src: seq<nat> := seq(n, j => 0);
      var k := 0;
      while k < n
        invariant 0 <= k <= n && |orig| == n
        invariant Ready()
        invariant SpreadFrom(orig, blocks[..], src)
        invariant !converted ==>
          blocks[..] == orig && nextSpread == old(nextSpread) && lastSpread == old(lastSpread)
        invariant converted ==>
          && due && blocks[..] != orig
          && lastSpread == Some(now) && Rescheduled(tuning, now, rs, nextSpread)
        invariant OneSpreadPerPass(tuning) && converted ==>
          now < nextSpread.value && firstJ < n && blocks[..] == orig[firstJ := Convert(orig[firstJ])]
        invariant due && !converted ==>
          forall m :: 0 <= m < k ==> !(Spreadable(orig[order[m]].kind) && HasSolidNeighbour(orig, order[m]))
      {
        var i := order[k];
        ghost var before := blocks[..];
        var spread, j := VisitTile(i, now, choices[k], rs[k]);
        if spread {
          SpreadStep(orig, before, src, i, j);
          if OneSpreadPerPass(tuning) {
            DelayPositiveAt(tuning, rs[k]);
          }
          if !converted {
            firstJ := j;
          }
          converted := true;
          assert Rescheduled(tuning, now, rs, nextSpread) by {
            assert nextSpread == Some(now + SpreadDelay(tuning, rs[k]));
          }
          src := src[j := i];
        }
        k := k + 1;
      }
      SpreadFromNeighbour(orig, blocks[..], src);
      if due && !converted {
        forall i | 0 <= i < n
          ensures !(Spreadable(orig[i].kind) && HasSolidNeighbour(orig, i))
        {
          assert i in order;
          var m :| 0 <= m < |order| && order[m] == i;
        }
      }
    }
  }
}
