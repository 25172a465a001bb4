/** Day 5: seeds are sent through an ordered list of maps (stages). In each stage
    the first range whose half-open source interval holds the value translates it
    by the range's offset; a value that no range holds passes through. */
module SeedAlmanac {
  import opened Common

  /** One line of a map: `[sourceStart, sourceStart + length)` is sent to
      `[destinationStart, destinationStart + length)`. */
  datatype Range = Range(destinationStart: nat, sourceStart: nat, length: nat)

  /** One map (one stage) and the whole list of maps, in declared order. */
  type Stage = seq<Range>
  type Maps = seq<Stage>

  /** The half-open membership test `(start..start + length).contains(&v)`. */
  predicate Contains(r: Range, v: nat)
  {
    r.sourceStart <= v < r.sourceStart + r.length
  }

  function Translate(r: Range, v: nat): nat
    requires Contains(r, v)
  {
    v - r.sourceStart + r.destinationStart
  }

  /** The index of the first range of the stage that holds `v`, as `iter().find`. */
  function FindRange(stage: Stage, v: nat): (r: Option<nat>)
    ensures r.Some? ==> r.value < |stage| && Contains(stage[r.value], v)
    ensures r.Some? ==> forall j :: 0 <= j < r.value ==> !Contains(stage[j], v)
    ensures r.None? <==> forall j :: 0 <= j < |stage| ==> !Contains(stage[j], v)
  {
    if stage == [] then None
    else if Contains(stage[0], v) then Some(0)
    else
      match FindRange(stage[1..], v)
      case None => None
      case Some(i) => Some(i + 1)
  }

  /** The value after one stage. */
  function MapStage(stage: Stage, v: nat): nat
  {
    match FindRange(stage, v)
    case None => v
    case Some(i) => Translate(stage[i], v)
  }

  /** The value after all stages: the stages folded from the left, in declared order. */
  function Location(maps: Maps, v: nat): nat
  {
    if maps == [] then v else Location(maps[1..], MapStage(maps[0], v))
  }

  /** `Seed::get_location`: a mutable location updated stage by stage. */
  method GetLocation(maps: Maps, seed: nat) returns (location: nat)
    ensures location == Location(maps, seed)
  {
    location := seed;
    for i := 0 to |maps|
      invariant Location(maps[i..], location) == Location(maps, seed)
    {
      assert maps[i..][1..] == maps[i + 1..];
      var ranges := maps[i];
      var j := 0;
      while j < |ranges| && !Contains(ranges[j], location)
        invariant j <= |ranges|
        invariant forall k :: 0 <= k < j ==> !Contains(ranges[k], location)
      {
        j := j + 1;
      }
      if j < |ranges| {
        FirstMatch(ranges, j, location);
        location := location - ranges[j].sourceStart + ranges[j].destinationStart;
      }
    }
  }

  // ---------------------------------------------------------------------------
  // One stage

  /** A value that no range of the stage holds leaves the stage unchanged. */
  lemma Miss(stage: Stage, v: nat)
    requires forall j :: 0 <= j < |stage| ==> !Contains(stage[j], v)
    ensures MapStage(stage, v) == v
  {
  }

  /** A value held by range `i` and by no earlier range is moved by range `i`'s
      offset, whatever later ranges hold. */
  lemma FirstMatch(stage: Stage, i: nat, v: nat)
    requires i < |stage| && Contains(stage[i], v)
    requires forall j :: 0 <= j < i ==> !Contains(stage[j], v)
    ensures MapStage(stage, v) == stage[i].destinationStart + (v - stage[i].sourceStart)
  {
  }

  /** Source intervals are half-open: the first and last held values go to the
      first and last destination values, and the end itself is not moved. */
  lemma HalfOpen(r: Range)
    ensures MapStage([r], r.sourceStart + r.length) == r.sourceStart + r.length
    ensures r.length > 0 ==> MapStage([r], r.sourceStart) == r.destinationStart
    ensures r.length > 0 ==>
      MapStage([r], r.sourceStart + r.length - 1) == r.destinationStart + r.length - 1
  {
    Miss([r], r.sourceStart + r.length);
    if r.length > 0 {
      FirstMatch([r], 0, r.sourceStart);
      FirstMatch([r], 0, r.sourceStart + r.length - 1);
    }
  }

  /** A stage applies at most one range: 10 is moved to 20 by the first range and
      is not moved on to 30 by the second, although the second holds 20. */
  lemma NoRematch()
    ensures MapStage([Range(20, 10, 5), Range(30, 20, 5)], 10) == 20
  {
    FirstMatch([Range(20, 10, 5), Range(30, 20, 5)], 0, 10);
  }

  /** A stage with no ranges is the identity. */
  lemma EmptyStage(v: nat)
    ensures MapStage([], v) == v
  {
  }

  // ---------------------------------------------------------------------------
  // The whole list of maps

  /** Running the maps `m1 + m2` is running `m1` and then `m2`. */
  lemma {:induction false} LocationAppend(m1: Maps, m2: Maps, v: nat)
    ensures Location(m1 + m2, v) == Location(m2, Location(m1, v))
    decreases |m1|
  {
    if m1 == [] {
      assert m1 + m2 == m2;
    } else {
      assert (m1 + m2)[1..] == m1[1..] + m2;
      LocationAppend(m1[1..], m2, MapStage(m1[0], v));
    }
  }

  /** The left fold: the last stage is applied to the location after the others. */
  lemma LocationSnoc(maps: Maps, stage: Stage, v: nat)
    ensures Location(maps + [stage], v) == MapStage(stage, Location(maps, v))
  {
    LocationAppend(maps, [stage], v);
  }

  // ---------------------------------------------------------------------------
  // The two answers

  function Locations(maps: Maps, xs: seq<nat>): (r: seq<nat>)
    ensures |r| == |xs| && forall i :: 0 <= i < |xs| ==> r[i] == Location(maps, xs[i])
  {
    if xs == [] then [] else [Location(maps, xs[0])] + Locations(maps, xs[1..])
  }

  /** `part_one`: the least location of the seeds, `None` when there are none. */
  function PartOne(seeds: seq<nat>, maps: Maps): (r: Option<nat>)
    ensures r.None? <==> |seeds| == 0
    ensures r.Some? ==> forall i :: 0 <= i < |seeds| ==> r.value <= Location(maps, seeds[i])
    ensures r.Some? ==> exists i :: 0 <= i < |seeds| && r.value == Location(maps, seeds[i])
  {
    MinOf(Locations(maps, seeds))
  }

  /** The seed list read as `(start, length)` pairs, as `chunks(2)`; an odd list
      would make `chunk[1]` panic. */
  function Pairs(seeds: seq<nat>): (r: seq<(nat, nat)>)
    requires |seeds| % 2 == 0
    ensures |r| == |seeds| / 2
    ensures forall k :: 0 <= k < |r| ==> r[k] == (seeds[2 * k], seeds[2 * k + 1])
  {
    if seeds == [] then [] else [(seeds[0], seeds[1])] + Pairs(seeds[2..])
  }

  /** `v` lies in the half-open range of one of the pairs. */
  predicate InSeedRanges(pairs: seq<(nat, nat)>, v: nat)
  {
    exists k :: 0 <= k < |pairs| && pairs[k].0 <= v < pairs[k].0 + pairs[k].1
  }

  /** Every seed value of every pair, pair by pair: the brute-force expansion. */
  function Expand(pairs: seq<(nat, nat)>): (r: seq<nat>)
    ensures forall v :: v in r <==> InSeedRanges(pairs, v)
  {
    if pairs == [] then []
    else
      var (start, length) := pairs[0];
      var here := seq(length, i => start + i);
      assert forall v :: v in here <==> start <= v < start + length by {
        forall v | start <= v < start + length ensures v in here {
          assert here[v - start] == v;
        }
      }
      var rest := Expand(pairs[1..]);
      assert forall v: nat :: InSeedRanges(pairs, v) <==>
          (start <= v < start + length || InSeedRanges(pairs[1..], v)) by {
        forall v: nat | InSeedRanges(pairs, v) && !(start <= v < start + length)
          ensures InSeedRanges(pairs[1..], v)
        {
          var k :| 0 <= k < |pairs| && pairs[k].0 <= v < pairs[k].0 + pairs[k].1;
          assert pairs[1..][k - 1] == pairs[k];
        }
        forall v: nat | InSeedRanges(pairs[1..], v) ensures InSeedRanges(pairs, v) {
          var k :| 0 <= k < |pairs[1..]| && pairs[1..][k].0 <= v < pairs[1..][k].0 + pairs[1..][k].1;
          assert pairs[k + 1] == pairs[1..][k];
        }
      }
      here + rest
  }

  /** `part_two`: the least location over every value of every `(start, length)`
      pair; a zero-length pair contributes nothing. */
  function PartTwo(seeds: seq<nat>, maps: Maps): (r: Option<nat>)
    requires |seeds| % 2 == 0
    ensures r.None? <==> forall k :: 0 <= k < |seeds| / 2 ==> seeds[2 * k + 1] == 0
    ensures r.Some? ==>
      forall v :: InSeedRanges(Pairs(seeds), v) ==> r.value <= Location(maps, v)
    ensures r.Some? ==>
      exists v :: InSeedRanges(Pairs(seeds), v) && r.value == Location(maps, v)
  {
    var pairs := Pairs(seeds);
    var values := Expand(pairs);
    var r := MinOf(Locations(maps, values));
    assert r.None? <==> forall k :: 0 <= k < |seeds| / 2 ==> seeds[2 * k + 1] == 0 by {
      if r.None? {
        forall k | 0 <= k < |seeds| / 2 ensures seeds[2 * k + 1] == 0 {
          assert pairs[k] == (seeds[2 * k], seeds[2 * k + 1]);
          if seeds[2 * k + 1] != 0 {
            assert InSeedRanges(pairs, seeds[2 * k]);
          }
        }
      } else {
        var v := values[0];
        assert InSeedRanges(pairs, v);
        var k :| 0 <= k < |pairs| && pairs[k].0 <= v < pairs[k].0 + pairs[k].1;
        assert seeds[2 * k + 1] != 0;
      }
    }
    assert r.Some? ==> forall v :: InSeedRanges(pairs, v) ==> r.value <= Location(maps, v) by {
      if r.Some? {
        forall v | InSeedRanges(pairs, v) ensures r.value <= Location(maps, v) {
          var i :| 0 <= i < |values| && values[i] == v;
        }
      }
    }
    assert r.Some? ==> exists v :: InSeedRanges(pairs, v) && r.value == Location(maps, v) by {
      if r.Some? {
        var i :| 0 <= i < |values| && r.value == Location(maps, values[i]);
        assert values[i] in values;
      }
    }
    r
  }
}

/** The worked example of the puzzle statement. */
module SeedAlmanacExample {
  import opened Common
  import opened SeedAlmanac

  function ExampleMaps(): Maps
  {
    [ [Range(50, 98, 2), Range(52, 50, 48)],
      [Range(0, 15, 37), Range(37, 52, 2), Range(39, 0, 15)],
      [Range(49, 53, 8), Range(0, 11, 42), Range(42, 0, 7), Range(57, 7, 4)],
      [Range(88, 18, 7), Range(18, 25, 70)],
      [Range(45, 77, 23), Range(81, 45, 19), Range(68, 64, 13)],
      [Range(0, 69, 1), Range(1, 0, 69)],
      [Range(60, 56, 37), Range(56, 93, 4)] ]
  }

  /** The location of `v`, given the value after each of the seven stages. */
  lemma Trace(v: nat, w: seq<nat>)
    requires |w| == 7
    requires MapStage(ExampleMaps()[0], v) == w[0]
    requires forall k :: 1 <= k < 7 ==> MapStage(ExampleMaps()[k], w[k - 1]) == w[k]
    ensures Location(ExampleMaps(), v) == w[6]
  {
    var maps := ExampleMaps();
    LocationAppend(maps[..1], maps[1..], v);
    assert maps[..1] + maps[1..] == maps;
    var k := 1;
    while k < 7
      invariant 1 <= k <= 7
      invariant Location(maps, v) == Location(maps[k..], w[k - 1])
    {
      assert maps[k..][1..] == maps[k + 1..];
      k := k + 1;
    }
  }

  lemma Seed79(v: nat) requires v == 79 ensures Location(ExampleMaps(), v) == 82
  { Trace(v, [81, 81, 81, 74, 78, 78, 82]); }
  lemma Seed14(v: nat) requires v == 14 ensures Location(ExampleMaps(), v) == 43
  { Trace(v, [14, 53, 49, 42, 42, 43, 43]); }
  lemma Seed55(v: nat) requires v == 55 ensures Location(ExampleMaps(), v) == 86
  { Trace(v, [57, 57, 53, 46, 82, 82, 86]); }
  lemma Seed13(v: nat) requires v == 13 ensures Location(ExampleMaps(), v) == 35
  { Trace(v, [13, 52, 41, 34, 34, 35, 35]); }

  /** `PartOne` of four seeds that reach locations 82, 43, 86 and 35. */
  lemma PartOneOfFour(maps: Maps, seeds: seq<nat>)
    requires |seeds| == 4
    requires Location(maps, seeds[0]) == 82 && Location(maps, seeds[1]) == 43
    requires Location(maps, seeds[2]) == 86 && Location(maps, seeds[3]) == 35
    ensures PartOne(seeds, maps) == Some(35)
  {
    var r := Locations(maps, seeds);
    assert r == [82, 43, 86, 35];
    LeastOfFour();
  }

  /** Seeds 79, 14, 55 and 13 reach locations 82, 43, 86 and 35; the least is 35. */
  lemma ExamplePartOne(seeds: seq<nat>, maps: Maps)
    requires |seeds| == 4 && seeds[0] == 79 && seeds[1] == 14 && seeds[2] == 55 && seeds[3] == 13
    requires maps == ExampleMaps()
    ensures PartOne(seeds, maps) == Some(35)
  {
    FourLocations(seeds, maps);
    PartOneOfFour(maps, seeds);
  }

  lemma FourLocations(seeds: seq<nat>, maps: Maps)
    requires |seeds| == 4 && seeds[0] == 79 && seeds[1] == 14 && seeds[2] == 55 && seeds[3] == 13
    requires maps == ExampleMaps()
    ensures Location(maps, seeds[0]) == 82 && Location(maps, seeds[1]) == 43
    ensures Location(maps, seeds[2]) == 86 && Location(maps, seeds[3]) == 35
  {
    Seed79(seeds[0]);
    Seed14(seeds[1]);
    Seed55(seeds[2]);
    Seed13(seeds[3]);
  }

  lemma LeastOfFour()
    ensures MinOf([82, 43, 86, 35]) == Some(35)
  {
    MinOfIs([82, 43, 86, 35], 3);
  }

  /* Part two: seeds 79..92 and 55..67, followed interval by interval through
     the stages. Each lemma bounds where one stage sends the values it receives. */

  lemma SoilBounds(v: nat)
    requires 79 <= v < 93 || 55 <= v < 68
    ensures var w := MapStage(ExampleMaps()[0], v); 81 <= w < 95 || 57 <= w < 70
  {
    FirstMatch(ExampleMaps()[0], 1, v);
  }

  lemma FertilizerBounds(v: nat)
    requires 81 <= v < 95 || 57 <= v < 70
    ensures MapStage(ExampleMaps()[1], v) == v
  {
    Miss(ExampleMaps()[1], v);
  }

  lemma WaterBounds(v: nat)
    requires 81 <= v < 95 || 57 <= v < 70
    ensures var w := MapStage(ExampleMaps()[2], v); 81 <= w < 95 || 53 <= w < 57 || 61 <= w < 70
  {
    if v < 61 { FirstMatch(ExampleMaps()[2], 0, v); } else { Miss(ExampleMaps()[2], v); }
  }

  lemma LightBounds(v: nat)
    requires 81 <= v < 95 || 53 <= v < 57 || 61 <= v < 70
    ensures var w := MapStage(ExampleMaps()[3], v); 74 <= w < 88 || 46 <= w < 50 || 54 <= w < 63
  {
    FirstMatch(ExampleMaps()[3], 1, v);
  }

  lemma TemperatureBounds(v: nat)
    requires 74 <= v < 88 || 46 <= v < 50 || 54 <= v < 63
    ensures var w := MapStage(ExampleMaps()[4], v); 45 <= w < 56 || 74 <= w < 99
  {
    var s := ExampleMaps()[4];
    if v < 64 { FirstMatch(s, 1, v); }
    else if v < 77 { FirstMatch(s, 2, v); }
    else { FirstMatch(s, 0, v); }
  }

  lemma HumidityBounds(v: nat)
    requires 45 <= v < 56 || 74 <= v < 99
    ensures var w := MapStage(ExampleMaps()[5], v); 46 <= w < 57 || 74 <= w < 99
  {
    if v < 56 { FirstMatch(ExampleMaps()[5], 1, v); } else { Miss(ExampleMaps()[5], v); }
  }

  lemma LocationBounds(v: nat)
    requires 46 <= v < 57 || 74 <= v < 99
    ensures MapStage(ExampleMaps()[6], v) >= 46
  {
    var s := ExampleMaps()[6];
    if 56 <= v < 93 { FirstMatch(s, 0, v); }
    else if 93 <= v < 97 { FirstMatch(s, 1, v); }
    else { Miss(s, v); }
  }

  /** The stages from `k` on: stage `k`, then the rest. */
  lemma LocationFrom(maps: Maps, k: nat, v: nat)
    requires k < |maps|
    ensures Location(maps[k..], v) == Location(maps[k + 1..], MapStage(maps[k], v))
  {
    assert maps[k..][1..] == maps[k + 1..];
  }

  lemma FromLocation(v: nat)
    requires 46 <= v < 57 || 74 <= v < 99
    ensures Location(ExampleMaps()[6..], v) >= 46
  {
    LocationFrom(ExampleMaps(), 6, v);
    LocationBounds(v);
    assert ExampleMaps()[7..] == [];
  }

  lemma FromHumidity(v: nat)
    requires 45 <= v < 56 || 74 <= v < 99
    ensures Location(ExampleMaps()[5..], v) >= 46
  {
    LocationFrom(ExampleMaps(), 5, v);
    HumidityBounds(v);
    FromLocation(MapStage(ExampleMaps()[5], v));
  }

  lemma FromTemperature(v: nat)
    requires 74 <= v < 88 || 46 <= v < 50 || 54 <= v < 63
    ensures Location(ExampleMaps()[4..], v) >= 46
  {
    LocationFrom(ExampleMaps(), 4, v);
    TemperatureBounds(v);
    FromHumidity(MapStage(ExampleMaps()[4], v));
  }

  lemma FromLight(v: nat)
    requires 81 <= v < 95 || 53 <= v < 57 || 61 <= v < 70
    ensures Location(ExampleMaps()[3..], v) >= 46
  {
    LocationFrom(ExampleMaps(), 3, v);
    LightBounds(v);
    FromTemperature(MapStage(ExampleMaps()[3], v));
  }

  lemma FromWater(v: nat)
    requires 81 <= v < 95 || 57 <= v < 70
    ensures Location(ExampleMaps()[2..], v) >= 46
  {
    LocationFrom(ExampleMaps(), 2, v);
    WaterBounds(v);
    FromLight(MapStage(ExampleMaps()[2], v));
  }

  lemma FromFertilizer(v: nat)
    requires 81 <= v < 95 || 57 <= v < 70
    ensures Location(ExampleMaps()[1..], v) >= 46
  {
    LocationFrom(ExampleMaps(), 1, v);
    FertilizerBounds(v);
    FromWater(MapStage(ExampleMaps()[1], v));
  }

  /** Every value of the two seed ranges reaches location 46 or more. */
  lemma SeedRangesAtLeast(v: nat)
    requires 79 <= v < 93 || 55 <= v < 68
    ensures Location(ExampleMaps(), v) >= 46
  {
    LocationFrom(ExampleMaps(), 0, v);
    assert ExampleMaps()[0..] == ExampleMaps();
    SoilBounds(v);
    FromFertilizer(MapStage(ExampleMaps()[0], v));
  }

  lemma Seed82(v: nat) requires v == 82 ensures Location(ExampleMaps(), v) == 46
  { Trace(v, [84, 84, 84, 77, 45, 46, 46]); }

  /** `PartTwo` is a location that some seed reaches and that no seed goes below. */
  lemma PartTwoIs(seeds: seq<nat>, maps: Maps, least: nat, seed: nat)
    requires |seeds| % 2 == 0
    requires InSeedRanges(Pairs(seeds), seed) && Location(maps, seed) == least
    requires forall v :: InSeedRanges(Pairs(seeds), v) ==> least <= Location(maps, v)
    ensures PartTwo(seeds, maps) == Some(least)
  {
    var pairs := Pairs(seeds);
    var k :| 0 <= k < |pairs| && pairs[k].0 <= seed < pairs[k].0 + pairs[k].1;
    assert seeds[2 * k + 1] != 0;
  }

  /** The two pairs of the example, as ranges. */
  lemma ExamplePairs(seeds: seq<nat>, v: nat)
    requires |seeds| == 4 && seeds[0] == 79 && seeds[1] == 14 && seeds[2] == 55 && seeds[3] == 13
    ensures InSeedRanges(Pairs(seeds), v) <==> 79 <= v < 93 || 55 <= v < 68
  {
    var pairs := Pairs(seeds);
    assert pairs[0] == (79, 14) && pairs[1] == (55, 13);
    if 79 <= v < 93 { assert pairs[0].0 <= v < pairs[0].0 + pairs[0].1; }
    if 55 <= v < 68 { assert pairs[1].0 <= v < pairs[1].0 + pairs[1].1; }
  }

  /** The pairs (79, 14) and (55, 13) cover 79..92 and 55..67; seed 82 reaches
      location 46 and no seed of either range reaches a lower one. */
  lemma ExamplePartTwo(seeds: seq<nat>, maps: Maps)
    requires |seeds| == 4 && seeds[0] == 79 && seeds[1] == 14 && seeds[2] == 55 && seeds[3] == 13
    requires maps == ExampleMaps()
    ensures PartTwo(seeds, maps) == Some(46)
  {
    forall v | InSeedRanges(Pairs(seeds), v) ensures 46 <= Location(maps, v) {
      ExamplePairs(seeds, v);
      SeedRangesAtLeast(v);
    }
    ExamplePairs(seeds, 82);
    Seed82(82);
    PartTwoIs(seeds, maps, 46, 82);
  }
}
