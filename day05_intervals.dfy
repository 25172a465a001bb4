/** An interval resolver for the seed ranges of day 5: each seed range is sent
    through the stages as a list of half-open intervals, split where a range's
    source interval begins or ends, instead of value by value. It is not part of
    the solution's code, which expands every seed; it is proved here to give the
    same least location as that expansion (`PartTwoByIntervals`). */
module IntervalResolver {
  import opened Common
  import opened SeedAlmanac

  /** The half-open interval `[start, end)`. */
  datatype Interval = Interval(start: nat, end: nat)

  predicate NonEmpty(ivs: seq<Interval>)
  {
    forall k :: 0 <= k < |ivs| ==> ivs[k].start < ivs[k].end
  }

  /** Some interval of `ivs` holds `x`. */
  predicate Covers(ivs: seq<Interval>, x: nat)
  {
    exists k :: 0 <= k < |ivs| && ivs[k].start <= x < ivs[k].end
  }

  function Max(a: nat, b: nat): nat { if a < b then b else a }
  function Min(a: nat, b: nat): nat { if a < b then a else b }

  /** The part of `iv` that range `r` holds, moved by `r`'s offset (empty or one
      interval). */
  function Moved(r: Range, iv: Interval): seq<Interval>
  {
    var lo := Max(iv.start, r.sourceStart);
    var hi := Min(iv.end, r.sourceStart + r.length);
    if lo < hi then [Interval(lo - r.sourceStart + r.destinationStart, hi - r.sourceStart + r.destinationStart)]
    else []
  }

  /** The parts of `iv` before and after `r`'s source interval (up to two
      intervals); they stay pending for the later ranges of the stage. */
  function Left(r: Range, iv: Interval): seq<Interval>
  {
    var before := Min(iv.end, r.sourceStart);
    var after := Max(iv.start, r.sourceStart + r.length);
    (if iv.start < before then [Interval(iv.start, before)] else [])
    + (if after < iv.end then [Interval(after, iv.end)] else [])
  }

  function MovedAll(r: Range, ivs: seq<Interval>): seq<Interval>
  {
    if ivs == [] then [] else Moved(r, ivs[0]) + MovedAll(r, ivs[1..])
  }

  function LeftAll(r: Range, ivs: seq<Interval>): seq<Interval>
  {
    if ivs == [] then [] else Left(r, ivs[0]) + LeftAll(r, ivs[1..])
  }

  /** One stage: each range in table order takes what it holds of the pending
      intervals; what no range holds passes through unchanged. */
  function ResolveStage(stage: Stage, pending: seq<Interval>): seq<Interval>
  {
    if stage == [] then pending
    else MovedAll(stage[0], pending) + ResolveStage(stage[1..], LeftAll(stage[0], pending))
  }

  /** All stages, in declared order. */
  function Resolve(maps: Maps, ivs: seq<Interval>): seq<Interval>
  {
    if maps == [] then ivs else Resolve(maps[1..], ResolveStage(maps[0], ivs))
  }

  /** The seed pairs as intervals; a zero-length pair gives no interval. */
  function SeedIntervals(pairs: seq<(nat, nat)>): (r: seq<Interval>)
    ensures NonEmpty(r)
    ensures forall x: nat :: Covers(r, x) <==> InSeedRanges(pairs, x)
  {
    if pairs == [] then []
    else
      var here := if pairs[0].1 > 0 then [Interval(pairs[0].0, pairs[0].0 + pairs[0].1)] else [];
      var rest := SeedIntervals(pairs[1..]);
      assert forall x: nat :: InSeedRanges(pairs, x) <==>
          (pairs[0].0 <= x < pairs[0].0 + pairs[0].1 || InSeedRanges(pairs[1..], x)) by {
        forall x: nat | InSeedRanges(pairs, x) && !(pairs[0].0 <= x < pairs[0].0 + pairs[0].1)
          ensures InSeedRanges(pairs[1..], x)
        {
          var k :| 0 <= k < |pairs| && pairs[k].0 <= x < pairs[k].0 + pairs[k].1;
          assert pairs[1..][k - 1] == pairs[k];
        }
        forall x: nat | InSeedRanges(pairs[1..], x) ensures InSeedRanges(pairs, x) {
          var k :| 0 <= k < |pairs[1..]| && pairs[1..][k].0 <= x < pairs[1..][k].0 + pairs[1..][k].1;
          assert pairs[k + 1] == pairs[1..][k];
        }
      }
      forall x: nat ensures Covers(here, x) <==> pairs[0].0 <= x < pairs[0].0 + pairs[0].1 {
        if pairs[0].0 <= x < pairs[0].0 + pairs[0].1 {
          assert here[0].start <= x < here[0].end;
        }
      }
      CoversAppend(here, rest);
      here + rest
  }

  function Starts(ivs: seq<Interval>): (r: seq<nat>)
    ensures |r| == |ivs| && forall k :: 0 <= k < |ivs| ==> r[k] == ivs[k].start
  {
    seq(|ivs|, k requires 0 <= k < |ivs| => ivs[k].start)
  }

  /** Part two by intervals: the least start of the resolved intervals. */
  function PartTwoByIntervals(seeds: seq<nat>, maps: Maps): Option<nat>
    requires |seeds| % 2 == 0
  {
    MinOf(Starts(Resolve(maps, SeedIntervals(Pairs(seeds)))))
  }

  // ---------------------------------------------------------------------------
  // Covering

  lemma CoversAppend(a: seq<Interval>, b: seq<Interval>)
    ensures forall x: nat :: Covers(a + b, x) <==> Covers(a, x) || Covers(b, x)
  {
    forall x: nat | Covers(a + b, x) ensures Covers(a, x) || Covers(b, x) {
      var k :| 0 <= k < |a + b| && (a + b)[k].start <= x < (a + b)[k].end;
      if k >= |a| {
        assert b[k - |a|] == (a + b)[k];
      }
    }
    forall x: nat | Covers(b, x) ensures Covers(a + b, x) {
      var k :| 0 <= k < |b| && b[k].start <= x < b[k].end;
      assert (a + b)[k + |a|] == b[k];
    }
    forall x: nat | Covers(a, x) ensures Covers(a + b, x) {
      var k :| 0 <= k < |a| && a[k].start <= x < a[k].end;
      assert (a + b)[k] == a[k];
    }
  }

  /** `Covers` of a list is `Covers` of its head or of its tail. */
  lemma CoversCons(ivs: seq<Interval>, x: nat)
    requires ivs != []
    ensures Covers(ivs, x) <==> (ivs[0].start <= x < ivs[0].end || Covers(ivs[1..], x))
  {
    if Covers(ivs, x) {
      var k :| 0 <= k < |ivs| && ivs[k].start <= x < ivs[k].end;
      if k > 0 {
        assert ivs[1..][k - 1] == ivs[k];
      }
    }
    if Covers(ivs[1..], x) {
      var k :| 0 <= k < |ivs[1..]| && ivs[1..][k].start <= x < ivs[1..][k].end;
      assert ivs[k + 1] == ivs[1..][k];
    }
  }

  /** What a range moves of one interval: exactly the translations of the values
      of the interval that the range holds. */
  lemma MovedExactly(r: Range, iv: Interval, y: nat)
    ensures Covers(Moved(r, iv), y) <==>
      (r.destinationStart <= y && iv.start <= y - r.destinationStart + r.sourceStart < iv.end
       && Contains(r, y - r.destinationStart + r.sourceStart))
  {
    var m := Moved(r, iv);
    if Covers(m, y) {
      var k :| 0 <= k < |m| && m[k].start <= y < m[k].end;
    }
    var x := y - r.destinationStart + r.sourceStart;
    if r.destinationStart <= y && iv.start <= x < iv.end && Contains(r, x) {
      assert m[0].start <= y < m[0].end;
    }
  }

  /** What a range leaves of one interval: exactly the values of the interval
      that the range does not hold. */
  lemma LeftExactly(r: Range, iv: Interval, x: nat)
    ensures Covers(Left(r, iv), x) <==> (iv.start <= x < iv.end && !Contains(r, x))
  {
    var before := Min(iv.end, r.sourceStart);
    var after := Max(iv.start, r.sourceStart + r.length);
    var a := if iv.start < before then [Interval(iv.start, before)] else [];
    var b := if after < iv.end then [Interval(after, iv.end)] else [];
    CoversAppend(a, b);
    if Covers(a, x) {
      assert a[0].start <= x < a[0].end;
    }
    if Covers(b, x) {
      assert b[0].start <= x < b[0].end;
    }
    if iv.start <= x < iv.end && !Contains(r, x) {
      if x < r.sourceStart {
        assert a[0].start <= x < a[0].end;
      } else {
        assert b[0].start <= x < b[0].end;
      }
    }
  }

  lemma {:induction false} MovedAllForward(r: Range, ivs: seq<Interval>, x: nat)
    requires Covers(ivs, x) && Contains(r, x)
    ensures Covers(MovedAll(r, ivs), Translate(r, x))
    decreases |ivs|
  {
    CoversCons(ivs, x);
    CoversAppend(Moved(r, ivs[0]), MovedAll(r, ivs[1..]));
    if ivs[0].start <= x < ivs[0].end {
      MovedExactly(r, ivs[0], Translate(r, x));
    } else {
      MovedAllForward(r, ivs[1..], x);
    }
  }

  lemma {:induction false} LeftAllForward(r: Range, ivs: seq<Interval>, x: nat)
    requires Covers(ivs, x) && !Contains(r, x)
    ensures Covers(LeftAll(r, ivs), x)
    decreases |ivs|
  {
    CoversCons(ivs, x);
    CoversAppend(Left(r, ivs[0]), LeftAll(r, ivs[1..]));
    if ivs[0].start <= x < ivs[0].end {
      LeftExactly(r, ivs[0], x);
    } else {
      LeftAllForward(r, ivs[1..], x);
    }
  }

  lemma {:induction false} MovedAllBack(r: Range, ivs: seq<Interval>, y: nat) returns (x: nat)
    requires Covers(MovedAll(r, ivs), y)
    ensures Covers(ivs, x) && Contains(r, x) && Translate(r, x) == y
    decreases |ivs|
  {
    CoversCons(ivs, 0);
    CoversAppend(Moved(r, ivs[0]), MovedAll(r, ivs[1..]));
    if Covers(Moved(r, ivs[0]), y) {
      MovedExactly(r, ivs[0], y);
      x := y - r.destinationStart + r.sourceStart;
      CoversCons(ivs, x);
    } else {
      x := MovedAllBack(r, ivs[1..], y);
      CoversCons(ivs, x);
    }
  }

  lemma {:induction false} LeftAllBack(r: Range, ivs: seq<Interval>, x: nat)
    requires Covers(LeftAll(r, ivs), x)
    ensures Covers(ivs, x) && !Contains(r, x)
    decreases |ivs|
  {
    CoversCons(ivs, x);
    CoversAppend(Left(r, ivs[0]), LeftAll(r, ivs[1..]));
    if Covers(Left(r, ivs[0]), x) {
      LeftExactly(r, ivs[0], x);
    } else {
      LeftAllBack(r, ivs[1..], x);
    }
  }

  /** A stage whose first range does not hold `x` maps it as its other ranges do. */
  lemma MapStageTail(stage: Stage, x: nat)
    requires stage != [] && !Contains(stage[0], x)
    ensures MapStage(stage, x) == MapStage(stage[1..], x)
  {
  }

  // ---------------------------------------------------------------------------
  // One stage, all stages

  /** Every value of the pending intervals reaches, through the stage, a value
      the resolved intervals hold. */
  lemma {:induction false} StageForward(stage: Stage, pending: seq<Interval>, x: nat)
    requires Covers(pending, x)
    ensures Covers(ResolveStage(stage, pending), MapStage(stage, x))
    decreases |stage|
  {
    if stage != [] {
      var r := stage[0];
      var moved, left := MovedAll(r, pending), LeftAll(r, pending);
      CoversAppend(moved, ResolveStage(stage[1..], left));
      if Contains(r, x) {
        FirstMatch(stage, 0, x);
        MovedAllForward(r, pending, x);
      } else {
        MapStageTail(stage, x);
        LeftAllForward(r, pending, x);
        StageForward(stage[1..], left, x);
      }
    }
  }

  /** Every value the resolved intervals hold is the image, through the stage, of
      a value of the pending intervals. */
  lemma {:induction false} StageBack(stage: Stage, pending: seq<Interval>, y: nat) returns (x: nat)
    requires Covers(ResolveStage(stage, pending), y)
    ensures Covers(pending, x) && MapStage(stage, x) == y
    decreases |stage|
  {
    if stage == [] {
      x := y;
    } else {
      var r := stage[0];
      var moved, left := MovedAll(r, pending), LeftAll(r, pending);
      CoversAppend(moved, ResolveStage(stage[1..], left));
      if Covers(moved, y) {
        x := MovedAllBack(r, pending, y);
        FirstMatch(stage, 0, x);
      } else {
        x := StageBack(stage[1..], left, y);
        LeftAllBack(r, pending, x);
        MapStageTail(stage, x);
      }
    }
  }

  lemma {:induction false} ResolveForward(maps: Maps, ivs: seq<Interval>, x: nat)
    requires Covers(ivs, x)
    ensures Covers(Resolve(maps, ivs), Location(maps, x))
    decreases |maps|
  {
    if maps != [] {
      StageForward(maps[0], ivs, x);
      ResolveForward(maps[1..], ResolveStage(maps[0], ivs), MapStage(maps[0], x));
    }
  }

  lemma {:induction false} ResolveBack(maps: Maps, ivs: seq<Interval>, y: nat) returns (x: nat)
    requires Covers(Resolve(maps, ivs), y)
    ensures Covers(ivs, x) && Location(maps, x) == y
    decreases |maps|
  {
    if maps == [] {
      x := y;
    } else {
      var w := ResolveBack(maps[1..], ResolveStage(maps[0], ivs), y);
      x := StageBack(maps[0], ivs, w);
    }
  }

  // ---------------------------------------------------------------------------
  // No empty pieces

  lemma {:induction false} MovedAllNonEmpty(r: Range, ivs: seq<Interval>)
    ensures NonEmpty(MovedAll(r, ivs))
    decreases |ivs|
  {
    if ivs != [] {
      MovedAllNonEmpty(r, ivs[1..]);
    }
  }

  lemma {:induction false} LeftAllNonEmpty(r: Range, ivs: seq<Interval>)
    ensures NonEmpty(LeftAll(r, ivs))
    decreases |ivs|
  {
    if ivs != [] {
      LeftAllNonEmpty(r, ivs[1..]);
    }
  }

  lemma {:induction false} ResolveStageNonEmpty(stage: Stage, pending: seq<Interval>)
    requires NonEmpty(pending)
    ensures NonEmpty(ResolveStage(stage, pending))
    decreases |stage|
  {
    if stage != [] {
      MovedAllNonEmpty(stage[0], pending);
      LeftAllNonEmpty(stage[0], pending);
      ResolveStageNonEmpty(stage[1..], LeftAll(stage[0], pending));
    }
  }

  lemma {:induction false} ResolveNonEmpty(maps: Maps, ivs: seq<Interval>)
    requires NonEmpty(ivs)
    ensures NonEmpty(Resolve(maps, ivs))
    decreases |maps|
  {
    if maps != [] {
      ResolveStageNonEmpty(maps[0], ivs);
      ResolveNonEmpty(maps[1..], ResolveStage(maps[0], ivs));
    }
  }

  // ---------------------------------------------------------------------------
  // The refinement

  /** The least start of the resolved intervals is the least location of the
      values of the input intervals. */
  lemma LeastStart(maps: Maps, input: seq<Interval>)
    requires NonEmpty(input)
    ensures var m := MinOf(Starts(Resolve(maps, input)));
      (m.None? ==> forall x: nat :: !Covers(input, x))
      && (m.Some? ==> forall x: nat :: Covers(input, x) ==> m.value <= Location(maps, x))
      && (m.Some? ==> exists x: nat :: Covers(input, x) && Location(maps, x) == m.value)
  {
    var out := Resolve(maps, input);
    ResolveNonEmpty(maps, input);
    var m := MinOf(Starts(out));
    forall x: nat | Covers(input, x) ensures m.Some? && m.value <= Location(maps, x) {
      ResolveForward(maps, input, x);
      var j :| 0 <= j < |out| && out[j].start <= Location(maps, x) < out[j].end;
      assert m.value <= Starts(out)[j];
    }
    if m.Some? {
      var k :| 0 <= k < |out| && m.value == Starts(out)[k];
      var x := ResolveBack(maps, input, out[k].start);
    }
  }

  /** The interval resolver gives the same least location as the brute-force
      expansion of every seed range. */
  lemma PartTwoByIntervalsCorrect(seeds: seq<nat>, maps: Maps)
    requires |seeds| % 2 == 0
    ensures PartTwoByIntervals(seeds, maps) == PartTwo(seeds, maps)
  {
    IntervalsNotBelow(seeds, maps);
    BruteNotBelow(seeds, maps);
  }

  /** What the resolver finds, the brute force finds too, no higher. */
  lemma IntervalsNotBelow(seeds: seq<nat>, maps: Maps)
    requires |seeds| % 2 == 0
    ensures PartTwoByIntervals(seeds, maps).Some? ==>
      PartTwo(seeds, maps).Some? && PartTwo(seeds, maps).value <= PartTwoByIntervals(seeds, maps).value
  {
    var pairs := Pairs(seeds);
    var input := SeedIntervals(pairs);
    LeastStart(maps, input);
    var m := PartTwoByIntervals(seeds, maps);
    if m.Some? {
      var x: nat :| Covers(input, x) && Location(maps, x) == m.value;
      var k :| 0 <= k < |pairs| && pairs[k].0 <= x < pairs[k].0 + pairs[k].1;
      assert seeds[2 * k + 1] != 0;
    }
  }

  /** What the brute force finds, the resolver finds too, no higher. */
  lemma BruteNotBelow(seeds: seq<nat>, maps: Maps)
    requires |seeds| % 2 == 0
    ensures PartTwo(seeds, maps).Some? ==>
      PartTwoByIntervals(seeds, maps).Some? && PartTwoByIntervals(seeds, maps).value <= PartTwo(seeds, maps).value
  {
    var pairs := Pairs(seeds);
    var input := SeedIntervals(pairs);
    LeastStart(maps, input);
    var brute := PartTwo(seeds, maps);
    if brute.Some? {
      var v :| InSeedRanges(pairs, v) && brute.value == Location(maps, v);
      assert Covers(input, v);
    }
  }

  // ---------------------------------------------------------------------------
  // No value is lost or duplicated

  function TotalLength(ivs: seq<Interval>): nat
  {
    if ivs == [] then 0
    else (if ivs[0].start <= ivs[0].end then ivs[0].end - ivs[0].start else 0) + TotalLength(ivs[1..])
  }

  lemma {:induction false} TotalLengthAppend(a: seq<Interval>, b: seq<Interval>)
    ensures TotalLength(a + b) == TotalLength(a) + TotalLength(b)
    decreases |a|
  {
    if a == [] {
      assert a + b == b;
    } else {
      assert (a + b)[1..] == a[1..] + b;
      TotalLengthAppend(a[1..], b);
    }
  }

  /** A range splits an interval into pieces whose lengths add up to the
      interval's. */
  lemma SplitConserves(r: Range, iv: Interval)
    requires iv.start <= iv.end
    ensures TotalLength(Moved(r, iv)) + TotalLength(Left(r, iv)) == iv.end - iv.start
  {
    var before := Min(iv.end, r.sourceStart);
    var after := Max(iv.start, r.sourceStart + r.length);
    TotalLengthAppend(
      if iv.start < before then [Interval(iv.start, before)] else [],
      if after < iv.end then [Interval(after, iv.end)] else []);
  }

  lemma {:induction false} SplitAllConserves(r: Range, ivs: seq<Interval>)
    requires NonEmpty(ivs)
    ensures TotalLength(MovedAll(r, ivs)) + TotalLength(LeftAll(r, ivs)) == TotalLength(ivs)
    decreases |ivs|
  {
    if ivs != [] {
      SplitConserves(r, ivs[0]);
      TotalLengthAppend(Moved(r, ivs[0]), MovedAll(r, ivs[1..]));
      TotalLengthAppend(Left(r, ivs[0]), LeftAll(r, ivs[1..]));
      SplitAllConserves(r, ivs[1..]);
    }
  }

  /** A stage conserves the total length of the intervals. */
  lemma {:induction false} StageConserves(stage: Stage, pending: seq<Interval>)
    requires NonEmpty(pending)
    ensures TotalLength(ResolveStage(stage, pending)) == TotalLength(pending)
    decreases |stage|
  {
    if stage != [] {
      var r := stage[0];
      SplitAllConserves(r, pending);
      LeftAllNonEmpty(r, pending);
      StageConserves(stage[1..], LeftAll(r, pending));
      TotalLengthAppend(MovedAll(r, pending), ResolveStage(stage[1..], LeftAll(r, pending)));
    }
  }
}
