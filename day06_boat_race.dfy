/** Day 6: toy boat races. Holding the button for `h` of a race's `time`
    milliseconds makes the boat travel `h * (time - h)`; a race is won by the
    hold times that travel farther than its record `distance`. */
module BoatRace {
  import opened Common

  datatype Race = Race(time: nat, distance: nat)

  const U64_MAX: nat := 18446744073709551615

  /** Distance travelled when the button is held for `held` milliseconds. */
  function Travelled(race: Race, held: nat): nat
    requires held <= race.time
  {
    held * (race.time - held)
  }

  predicate Beats(race: Race, held: nat)
    requires held <= race.time
  {
    Travelled(race, held) > race.distance
  }

  /** The number of winning hold times in `[lo, hi)`. */
  function WinnersIn(race: Race, lo: nat, hi: nat): nat
    requires hi <= race.time
    decreases hi - lo
  {
    if hi <= lo then 0 else (if Beats(race, lo) then 1 else 0) + WinnersIn(race, lo + 1, hi)
  }

  /** The number of winning hold times among `1 .. time - 1`, the range the
      solution searches. */
  function WinnerCount(race: Race): nat
  {
    WinnersIn(race, 1, race.time)
  }

  /** What `record_beating_count` yields: the number of winners, or a panic when
      there are fewer than two (its two `unwrap`s). */
  function BeatingCount(race: Race): (r: Result<nat>)
    ensures r.Ok? <==> WinnerCount(race) >= 2
    ensures r.Ok? ==> r.value == WinnerCount(race)
  {
    if WinnerCount(race) >= 2 then Ok(WinnerCount(race)) else Panic
  }

  /** `record_beating_count`: a forward search for the first winning hold time,
      then a reverse search over what the forward search left of the range
      (values after the first winner) for the last one; the answer is the span
      between them. */
  method RecordBeatingCount(race: Race) returns (r: Result<nat>)
    ensures r == BeatingCount(race)
  {
    // the range 1..time; `find` consumes everything up to and including the hit
    var padStart := 1;
    while padStart < race.time && !Beats(race, padStart)
      invariant 1 <= padStart && (padStart <= race.time || padStart == 1)
      invariant forall k :: 1 <= k < padStart && k <= race.time ==> !Beats(race, k)
      decreases race.time - padStart
    {
      padStart := padStart + 1;
    }
    if padStart >= race.time {
      WinnersNone(race, 1, race.time);
      return Panic;
    }
    // the reverse search runs over padStart + 1 .. time
    var end := race.time;
    while end > padStart + 1 && !Beats(race, end - 1)
      invariant padStart + 1 <= end <= race.time
      invariant forall k :: end <= k < race.time ==> !Beats(race, k)
      decreases end
    {
      end := end - 1;
    }
    if end == padStart + 1 {
      WinnersNone(race, 1, padStart);
      WinnersNone(race, padStart + 1, race.time);
      WinnersSplit(race, 1, padStart, race.time);
      return Panic;
    }
    var padEnd := end - 1;
    CountFromBracket(race, padStart, padEnd);
    r := Ok(race.time - (padStart - 1) - (race.time - padEnd));
  }

  // ---------------------------------------------------------------------------
  // Winners are contiguous

  lemma DistanceGain(t: int, a: int, m: int)
    ensures m * (t - m) - a * (t - a) == (m - a) * (t - m - a)
  {
  }

  lemma MulNonNegative(x: int, y: int)
    requires (x >= 0 && y >= 0) || (x <= 0 && y <= 0)
    ensures x * y >= 0
  {
  }

  /** A hold time between two winning hold times wins too: the distance
      `h * (time - h)` rises and then falls. */
  lemma Contiguous(race: Race, a: nat, m: nat, b: nat)
    requires a <= m <= b <= race.time
    requires Beats(race, a) && Beats(race, b)
    ensures Beats(race, m)
  {
    var t := race.time;
    DistanceGain(t, a, m);
    DistanceGain(t, b, m);
    if m + a <= t {
      MulNonNegative(m - a, t - m - a);
    } else {
      MulNonNegative(m - b, t - m - b);
    }
  }

  lemma {:induction false} WinnersSplit(race: Race, lo: nat, mid: nat, hi: nat)
    requires lo <= mid <= hi <= race.time
    ensures WinnersIn(race, lo, hi) == WinnersIn(race, lo, mid) + WinnersIn(race, mid, hi)
    decreases mid - lo
  {
    if lo < mid {
      WinnersSplit(race, lo + 1, mid, hi);
    }
  }

  lemma {:induction false} WinnersNone(race: Race, lo: nat, hi: nat)
    requires hi <= race.time
    requires forall k :: lo <= k < hi ==> !Beats(race, k)
    ensures WinnersIn(race, lo, hi) == 0
    decreases hi - lo
  {
    if lo < hi {
      WinnersNone(race, lo + 1, hi);
    }
  }

  lemma {:induction false} WinnersAll(race: Race, lo: nat, hi: nat)
    requires lo <= hi <= race.time
    requires forall k :: lo <= k < hi ==> Beats(race, k)
    ensures WinnersIn(race, lo, hi) == hi - lo
    decreases hi - lo
  {
    if lo < hi {
      WinnersAll(race, lo + 1, hi);
    }
  }

  /** If `first` and `last` win and nothing in `[1, first)` or `(last, time)`
      does, then the winners are exactly `first .. last`. */
  lemma CountFromBracket(race: Race, first: nat, last: nat)
    requires 1 <= first <= last < race.time
    requires Beats(race, first) && Beats(race, last)
    requires forall k :: 1 <= k < first ==> !Beats(race, k)
    requires forall k :: last < k < race.time ==> !Beats(race, k)
    ensures WinnerCount(race) == last - first + 1
  {
    forall k | first <= k < last + 1 ensures Beats(race, k) {
      Contiguous(race, first, k, last);
    }
    WinnersNone(race, 1, first);
    WinnersAll(race, first, last + 1);
    WinnersNone(race, last + 1, race.time);
    WinnersSplit(race, 1, first, race.time);
    WinnersSplit(race, first, last + 1, race.time);
  }

  /** The bracket needs checking only at its edges: a first winner whose
      predecessor loses and a last winner whose successor loses. */
  lemma CountFromEdges(race: Race, first: nat, last: nat)
    requires 1 <= first <= last < race.time
    requires Beats(race, first) && Beats(race, last)
    requires first == 1 || !Beats(race, first - 1)
    requires last + 1 == race.time || !Beats(race, last + 1)
    ensures WinnerCount(race) == last - first + 1
  {
    forall k | 1 <= k < first ensures !Beats(race, k) {
      if Beats(race, k) {
        Contiguous(race, k, first - 1, first);
      }
    }
    forall k | last < k < race.time ensures !Beats(race, k) {
      if Beats(race, k) {
        Contiguous(race, last, last + 1, k);
      }
    }
    CountFromBracket(race, first, last);
  }

  // ---------------------------------------------------------------------------
  // Part one: several races

  function Counts(races: seq<Race>): (r: seq<nat>)
    ensures |r| == |races| && forall i :: 0 <= i < |races| ==> r[i] == WinnerCount(races[i])
  {
    seq(|races|, i requires 0 <= i < |races| => WinnerCount(races[i]))
  }

  /** Part one: the product of the races' counts; the first race with fewer than
      two winners panics. */
  function PartOne(races: seq<Race>): (r: Result<nat>)
    ensures r.Ok? <==> forall i :: 0 <= i < |races| ==> WinnerCount(races[i]) >= 2
    ensures r.Ok? ==> r.value == Product(Counts(races))
  {
    if races == [] then Ok(1)
    else
      assert forall i :: 1 <= i < |races| ==> races[1..][i - 1] == races[i];
      assert Counts(races) == [WinnerCount(races[0])] + Counts(races[1..]);
      match BeatingCount(races[0])
      case Panic => Panic
      case Ok(c) =>
        match PartOne(races[1..])
        case Panic => Panic
        case Ok(rest) => Ok(c * rest)
  }

  // ---------------------------------------------------------------------------
  // Part two: the races' numbers read as one

  /** The decimal digits of every value, one after the other (what
      `merge_values` collects before parsing). */
  function ConcatDecimals(values: seq<nat>): (s: string)
    ensures AllDigits(s)
    ensures values != [] ==> |s| >= 1
  {
    if values == [] then []
    else
      var s := ConcatDecimals(values[..|values| - 1]) + Decimal(values[|values| - 1]);
      assert forall i :: 0 <= i < |s| ==> IsDigit(s[i]) by {
        var a, b := ConcatDecimals(values[..|values| - 1]), Decimal(values[|values| - 1]);
        assert forall i :: |a| <= i < |s| ==> s[i] == b[i - |a|];
      }
      s
  }

  /** The merged number computed arithmetically: each value shifted in after the
      digits of the ones before. */
  function Merged(values: seq<nat>): nat
  {
    if values == [] then 0
    else
      var v := values[|values| - 1];
      Merged(values[..|values| - 1]) * Pow10(|Decimal(v)|) + v
  }

  /** Shifting in the digits arithmetically is reading the concatenation. */
  lemma {:induction false} MergedReadsDigits(values: seq<nat>)
    ensures Merged(values) == DigitsValue(ConcatDecimals(values))
    decreases |values|
  {
    if values != [] {
      var init, v := values[..|values| - 1], values[|values| - 1];
      MergedReadsDigits(init);
      DigitsValueAppend(ConcatDecimals(init), Decimal(v));
      DecimalRoundTrip(v);
    }
  }

  /** `merge_values`: the number written by the concatenated digits, or an
      error (`None`) when there is nothing to parse or it exceeds `u64`. */
  function MergeValues(values: seq<nat>): (r: Option<nat>)
    ensures r.None? <==> values == [] || DigitsValue(ConcatDecimals(values)) > U64_MAX
    ensures r.Some? ==> r.value == DigitsValue(ConcatDecimals(values))
  {
    MergedReadsDigits(values);
    if values == [] || Merged(values) > U64_MAX then None else Some(Merged(values))
  }

  /** Part two: one race whose time and record are the merged numbers; a failed
      merge or a race with fewer than two winners panics. */
  function PartTwo(times: seq<nat>, distances: seq<nat>): (r: Result<nat>)
    ensures r.Ok? <==> MergeValues(times).Some? && MergeValues(distances).Some?
                       && WinnerCount(Race(MergeValues(times).value, MergeValues(distances).value)) >= 2
    ensures r.Ok? ==> r.value == WinnerCount(Race(MergeValues(times).value, MergeValues(distances).value))
  {
    match (MergeValues(times), MergeValues(distances))
    case (Some(t), Some(d)) => BeatingCount(Race(t, d))
    case _ => Panic
  }

  // ---------------------------------------------------------------------------
  // One winner is not enough

  /** A race with a single winning hold time panics although it can be won:
      time 2 and record 0 are won only by holding 1 millisecond. */
  lemma SingleWinnerPanics()
    ensures WinnerCount(Race(2, 0)) == 1
    ensures BeatingCount(Race(2, 0)) == Panic
  {
  }
}

module BoatRaceExample {
  import opened Common
  import opened BoatRace

  lemma RaceOne(race: Race)
    requires race == Race(7, 9)
    ensures WinnerCount(race) == 4
  {
    CountFromEdges(race, 2, 5);
  }

  lemma RaceTwo(race: Race)
    requires race == Race(15, 40)
    ensures WinnerCount(race) == 8
  {
    CountFromEdges(race, 4, 11);
  }

  lemma RaceThree(race: Race)
    requires race == Race(30, 200)
    ensures WinnerCount(race) == 9
  {
    CountFromEdges(race, 11, 19);
  }

  /** The example's three races: 4, 8 and 9 ways to win. */
  lemma ExamplePartOne(races: seq<Race>)
    requires races == [Race(7, 9), Race(15, 40), Race(30, 200)]
    ensures PartOne(races) == Ok(288)
  {
    RaceOne(races[0]);
    RaceTwo(races[1]);
    RaceThree(races[2]);
    var c := Counts(races);
    assert c == [4, 8, 9];
    assert c[1..] == [8, 9] && c[1..][1..] == [9] && c[1..][1..][1..] == [];
    assert Product(c[1..][1..]) == 9;
    assert Product(c[1..]) == 72;
  }

  lemma MergeTimes(times: seq<nat>)
    requires times == [7, 15, 30]
    ensures MergeValues(times) == Some(71530)
  {
    assert |Decimal(7)| == 1 && |Decimal(15)| == 2 && |Decimal(30)| == 2;
    assert times[..2] == [7, 15] && [7, 15][..1] == [7] && [7][..0] == [];
    assert Merged([7]) == 7;
    assert Merged([7, 15]) == 715;
    assert Merged(times) == 71530;
  }

  lemma MergeDistances(distances: seq<nat>)
    requires distances == [9, 40, 200]
    ensures MergeValues(distances) == Some(940200)
  {
    assert |Decimal(9)| == 1 && |Decimal(40)| == 2 && |Decimal(200)| == 3;
    assert distances[..2] == [9, 40] && [9, 40][..1] == [9] && [9][..0] == [];
    assert Merged([9]) == 9;
    assert Merged([9, 40]) == 940;
    assert Merged(distances) == 940200;
  }

  /** The merged race is won by holding 14 to 71516 milliseconds. */
  lemma MergedRace(race: Race)
    requires race == Race(71530, 940200)
    ensures WinnerCount(race) == 71503
  {
    CountFromEdges(race, 14, 71516);
  }

  lemma ExamplePartTwo(times: seq<nat>, distances: seq<nat>)
    requires times == [7, 15, 30] && distances == [9, 40, 200]
    ensures PartTwo(times, distances) == Ok(71503)
  {
    MergeTimes(times);
    MergeDistances(distances);
    MergedRace(Race(71530, 940200));
  }
}
