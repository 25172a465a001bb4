/** Day 2: games in which handfuls of red, green and blue cubes are drawn from a
    bag. A game is possible with the bag of 12 red, 13 green and 14 blue cubes
    when no handful exceeds it; the power of a game is the product of the
    smallest bag that makes it possible. */
module CubeConundrum {
  import opened Common

  datatype Colour = Red | Green | Blue

  /** One mention `<amount> <colour>` in a handful. */
  datatype Cube = Cube(colour: Colour, amount: nat)

  /** `Cube::new`: only the three colour names are reachable. */
  function CubeOf(name: string, amount: nat): (r: Option<Cube>)
    ensures r.Some? <==> name == "red" || name == "green" || name == "blue"
    ensures r.Some? ==> r.value.amount == amount
    ensures r == Some(Cube(Red, amount)) <==> name == "red"
    ensures r == Some(Cube(Green, amount)) <==> name == "green"
    ensures r == Some(Cube(Blue, amount)) <==> name == "blue"
  {
    if name == "red" then Some(Cube(Red, amount))
    else if name == "green" then Some(Cube(Green, amount))
    else if name == "blue" then Some(Cube(Blue, amount))
    else None
  }

  /** The cubes of one handful, per colour. */
  datatype CubeSet = CubeSet(red: nat, green: nat, blue: nat)

  datatype Game = Game(id: nat, cubeSets: seq<CubeSet>)

  function Count(s: CubeSet, c: Colour): nat
  {
    match c
    case Red => s.red
    case Green => s.green
    case Blue => s.blue
  }

  // ---------------------------------------------------------------------------
  // Summing the mentions of one handful

  /** The total amount of colour `c` mentioned in `cubes`. */
  function Total(cubes: seq<Cube>, c: Colour): (r: nat)
    ensures (forall i :: 0 <= i < |cubes| ==> cubes[i].colour != c) ==> r == 0
    ensures forall i :: 0 <= i < |cubes| && cubes[i].colour == c ==> cubes[i].amount <= r
  {
    if cubes == [] then 0
    else
      var init, last := cubes[..|cubes| - 1], cubes[|cubes| - 1];
      assert forall i :: 0 <= i < |init| ==> init[i] == cubes[i];
      Total(init, c) + (if last.colour == c then last.amount else 0)
  }

  /** Mentions in two parts of a handful add up. */
  lemma {:induction false} TotalAppend(a: seq<Cube>, b: seq<Cube>, c: Colour)
    ensures Total(a + b, c) == Total(a, c) + Total(b, c)
    decreases |b|
  {
    if b == [] {
      assert a + b == a;
    } else {
      var b' := b[..|b| - 1];
      assert (a + b)[..|a + b| - 1] == a + b';
      assert (a + b)[|a + b| - 1] == b[|b| - 1];
      TotalAppend(a, b', c);
    }
  }

  /** The accumulation in `parse_cube_set`: each mention adds its amount to
      its colour. */
  method CubeSetOf(cubes: seq<Cube>) returns (s: CubeSet)
    ensures s == CubeSet(Total(cubes, Red), Total(cubes, Green), Total(cubes, Blue))
  {
    var red, green, blue := 0, 0, 0;
    for i := 0 to |cubes|
      invariant red == Total(cubes[..i], Red)
      invariant green == Total(cubes[..i], Green)
      invariant blue == Total(cubes[..i], Blue)
    {
      assert cubes[..i + 1][..i] == cubes[..i];
      match cubes[i].colour {
        case Red => red := red + cubes[i].amount;
        case Green => green := green + cubes[i].amount;
        case Blue => blue := blue + cubes[i].amount;
      }
    }
    assert cubes[..|cubes|] == cubes;
    s := CubeSet(red, green, blue);
  }

  // ---------------------------------------------------------------------------
  // Validity

  /** `CubeSet::is_valid`: the handful could come from the puzzle's bag. */
  predicate IsValid(s: CubeSet): (r: bool)
    ensures r <==> Fits(s, Limits)
  {
    s.red <= 12 && s.green <= 13 && s.blue <= 14
  }

  /** `Game::is_valid`: every handful could come from the puzzle's bag. */
  predicate GameIsValid(game: Game): (r: bool)
    ensures r <==> Possible(game.cubeSets, Limits)
  {
    forall i :: 0 <= i < |game.cubeSets| ==> IsValid(game.cubeSets[i])
  }

  /** The bag `bag` holds at least handful `s`. */
  predicate Fits(s: CubeSet, bag: CubeSet)
  {
    s.red <= bag.red && s.green <= bag.green && s.blue <= bag.blue
  }

  /** Every handful of the game could come from `bag`. */
  predicate Possible(sets: seq<CubeSet>, bag: CubeSet)
  {
    forall i :: 0 <= i < |sets| ==> Fits(sets[i], bag)
  }

  /** The bag of the puzzle. */
  const Limits := CubeSet(12, 13, 14)

  // ---------------------------------------------------------------------------
  // The minimum bag and its power

  function Max(a: nat, b: nat): nat { if a < b then b else a }

  /** The largest count of colour `c` over the handfuls, 0 when there are none;
      the running maximum of `power_of_minimum_blocks`. */
  function MaxOf(sets: seq<CubeSet>, c: Colour): (r: nat)
    ensures forall i :: 0 <= i < |sets| ==> Count(sets[i], c) <= r
    ensures r == 0 || exists i :: 0 <= i < |sets| && Count(sets[i], c) == r
  {
    if sets == [] then 0
    else
      var init := sets[..|sets| - 1];
      assert forall i :: 0 <= i < |init| ==> init[i] == sets[i];
      Max(MaxOf(init, c), Count(sets[|sets| - 1], c))
  }

  function MinimumBag(sets: seq<CubeSet>): CubeSet
  {
    CubeSet(MaxOf(sets, Red), MaxOf(sets, Green), MaxOf(sets, Blue))
  }

  /** The minimum bag makes the game possible, and any bag that makes the game
      possible holds at least the minimum bag. */
  lemma MinimumBagIsLeast(sets: seq<CubeSet>, bag: CubeSet)
    ensures Possible(sets, MinimumBag(sets))
    ensures Possible(sets, bag) <==> Fits(MinimumBag(sets), bag)
  {
    if Possible(sets, bag) {
      var m := MinimumBag(sets);
      if m.red > 0 {
        var i :| 0 <= i < |sets| && Count(sets[i], Red) == m.red;
      }
      if m.green > 0 {
        var i :| 0 <= i < |sets| && Count(sets[i], Green) == m.green;
      }
      if m.blue > 0 {
        var i :| 0 <= i < |sets| && Count(sets[i], Blue) == m.blue;
      }
    }
  }

  /** A game is valid exactly when its minimum bag is within the limits. */
  lemma GameValidByMinimumBag(game: Game)
    ensures GameIsValid(game) <==> Fits(MinimumBag(game.cubeSets), Limits)
  {
    MinimumBagIsLeast(game.cubeSets, Limits);
  }

  function Power(bag: CubeSet): nat
  {
    bag.red * bag.green * bag.blue
  }

  /** `power_of_minimum_blocks`: the running maxima of each colour over the
      handfuls, multiplied. */
  method PowerOfMinimumBlocks(game: Game) returns (power: nat)
    ensures power == Power(MinimumBag(game.cubeSets))
  {
    var red, green, blue := 0, 0, 0;
    var sets := game.cubeSets;
    for i := 0 to |sets|
      invariant red == MaxOf(sets[..i], Red)
      invariant green == MaxOf(sets[..i], Green)
      invariant blue == MaxOf(sets[..i], Blue)
    {
      assert sets[..i + 1][..i] == sets[..i];
      red := Max(red, sets[i].red);
      green := Max(green, sets[i].green);
      blue := Max(blue, sets[i].blue);
    }
    assert sets[..|sets|] == sets;
    var bag := CubeSet(red, green, blue);
    assert bag == MinimumBag(sets);
    power := Power(bag);
  }

  /** No handful holds colour `c`. */
  predicate Absent(sets: seq<CubeSet>, c: Colour)
  {
    forall i :: 0 <= i < |sets| ==> Count(sets[i], c) == 0
  }

  lemma ProductZero(x: nat, y: nat, z: nat)
    ensures x * y * z == 0 <==> x == 0 || y == 0 || z == 0
  {
    if x != 0 && y != 0 && z != 0 {
      assert x * y >= 1;
      assert (x * y) * z >= 1;
    }
  }

  lemma AbsentIffNoMax(sets: seq<CubeSet>, c: Colour)
    ensures Absent(sets, c) <==> MaxOf(sets, c) == 0
  {
  }

  /** The power is 0 exactly when some colour appears in no handful, since the
      maxima start at 0. */
  lemma PowerZero(sets: seq<CubeSet>)
    ensures Power(MinimumBag(sets)) == 0 <==> Absent(sets, Red) || Absent(sets, Green) || Absent(sets, Blue)
  {
    var m := MinimumBag(sets);
    ProductZero(m.red, m.green, m.blue);
    AbsentIffNoMax(sets, Red);
    AbsentIffNoMax(sets, Green);
    AbsentIffNoMax(sets, Blue);
  }

  // ---------------------------------------------------------------------------
  // The puzzle answers

  /** Part one: the sum of the ids of the valid games. */
  function PartOne(games: seq<Game>): (r: nat)
    ensures (forall i :: 0 <= i < |games| ==> !GameIsValid(games[i])) ==> r == 0
  {
    if games == [] then 0
    else
      assert forall i :: 1 <= i < |games| ==> games[1..][i - 1] == games[i];
      (if GameIsValid(games[0]) then games[0].id else 0) + PartOne(games[1..])
  }

  function Ids(games: seq<Game>): (r: seq<nat>)
    ensures |r| == |games| && forall i :: 0 <= i < |games| ==> r[i] == games[i].id
  {
    seq(|games|, i requires 0 <= i < |games| => games[i].id)
  }

  /** Valid games contribute their ids: with every game valid, part one sums
      all ids; an invalid game never adds to the sum. */
  lemma {:induction false} PartOneAllValid(games: seq<Game>)
    requires forall i :: 0 <= i < |games| ==> GameIsValid(games[i])
    ensures PartOne(games) == Sum(Ids(games))
  {
    if games != [] {
      assert Ids(games) == [games[0].id] + Ids(games[1..]);
      assert forall i :: 1 <= i < |games| ==> games[1..][i - 1] == games[i];
      PartOneAllValid(games[1..]);
    }
  }

  lemma {:induction false} PartOneAppend(a: seq<Game>, b: seq<Game>)
    ensures PartOne(a + b) == PartOne(a) + PartOne(b)
  {
    if a == [] {
      assert a + b == b;
    } else {
      assert (a + b)[1..] == a[1..] + b;
      PartOneAppend(a[1..], b);
    }
  }

  /** Dropping an invalid game leaves part one unchanged. */
  lemma InvalidGameAddsNothing(a: seq<Game>, g: Game, b: seq<Game>)
    requires !GameIsValid(g)
    ensures PartOne(a + [g] + b) == PartOne(a + b)
  {
    PartOneAppend(a + [g], b);
    PartOneAppend(a, [g]);
    PartOneAppend(a, b);
    assert [g][1..] == [];
  }

  /** Part two: the sum of the games' powers. */
  function PartTwo(games: seq<Game>): (r: nat)
    ensures forall i :: 0 <= i < |games| ==> Power(MinimumBag(games[i].cubeSets)) <= r
  {
    if games == [] then 0
    else
      assert forall i :: 1 <= i < |games| ==> games[1..][i - 1] == games[i];
      Power(MinimumBag(games[0].cubeSets)) + PartTwo(games[1..])
  }

  lemma {:induction false} PartTwoAppend(a: seq<Game>, b: seq<Game>)
    ensures PartTwo(a + b) == PartTwo(a) + PartTwo(b)
  {
    if a == [] {
      assert a + b == b;
    } else {
      assert (a + b)[1..] == a[1..] + b;
      PartTwoAppend(a[1..], b);
    }
  }
}

module CubeConundrumExample {
  import opened CubeConundrum

  /** The example's five games, by the cube sets their handfuls add up to. */
  predicate ExampleGames(games: seq<Game>)
  {
    games == [
      Game(1, [CubeSet(4, 0, 3), CubeSet(1, 2, 6), CubeSet(0, 2, 0)]),
      Game(2, [CubeSet(0, 2, 1), CubeSet(1, 3, 4), CubeSet(0, 1, 1)]),
      Game(3, [CubeSet(20, 8, 6), CubeSet(4, 13, 5), CubeSet(1, 5, 0)]),
      Game(4, [CubeSet(3, 1, 6), CubeSet(6, 3, 0), CubeSet(14, 3, 15)]),
      Game(5, [CubeSet(6, 3, 1), CubeSet(1, 2, 2)])
    ]
  }

  /** A bag that holds each of three handfuls and matches one of them in each
      colour is their minimum bag. */
  lemma ThreeSets(sets: seq<CubeSet>, bag: CubeSet)
    requires |sets| == 3
    requires Fits(sets[0], bag) && Fits(sets[1], bag) && Fits(sets[2], bag)
    requires bag.red == sets[0].red || bag.red == sets[1].red || bag.red == sets[2].red
    requires bag.green == sets[0].green || bag.green == sets[1].green || bag.green == sets[2].green
    requires bag.blue == sets[0].blue || bag.blue == sets[1].blue || bag.blue == sets[2].blue
    ensures MinimumBag(sets) == bag
  {
    MinimumBagIsLeast(sets, bag);
  }

  lemma GameOne(g: Game)
    requires g == Game(1, [CubeSet(4, 0, 3), CubeSet(1, 2, 6), CubeSet(0, 2, 0)])
    ensures GameIsValid(g) && Power(MinimumBag(g.cubeSets)) == 48
  {
    ThreeSets(g.cubeSets, CubeSet(4, 2, 6));
  }

  lemma GameTwo(g: Game)
    requires g == Game(2, [CubeSet(0, 2, 1), CubeSet(1, 3, 4), CubeSet(0, 1, 1)])
    ensures GameIsValid(g) && Power(MinimumBag(g.cubeSets)) == 12
  {
    ThreeSets(g.cubeSets, CubeSet(1, 3, 4));
  }

  lemma GameThree(g: Game)
    requires g == Game(3, [CubeSet(20, 8, 6), CubeSet(4, 13, 5), CubeSet(1, 5, 0)])
    ensures !GameIsValid(g) && Power(MinimumBag(g.cubeSets)) == 1560
  {
    assert !IsValid(g.cubeSets[0]);
    ThreeSets(g.cubeSets, CubeSet(20, 13, 6));
  }

  lemma GameFour(g: Game)
    requires g == Game(4, [CubeSet(3, 1, 6), CubeSet(6, 3, 0), CubeSet(14, 3, 15)])
    ensures !GameIsValid(g) && Power(MinimumBag(g.cubeSets)) == 630
  {
    assert !IsValid(g.cubeSets[2]);
    ThreeSets(g.cubeSets, CubeSet(14, 3, 15));
  }

  lemma GameFive(g: Game)
    requires g == Game(5, [CubeSet(6, 3, 1), CubeSet(1, 2, 2)])
    ensures GameIsValid(g) && Power(MinimumBag(g.cubeSets)) == 36
  {
    MinimumBagIsLeast(g.cubeSets, CubeSet(6, 3, 2));
    assert MinimumBag(g.cubeSets) == CubeSet(6, 3, 2);
  }

  function Contribution(g: Game): nat
  {
    if GameIsValid(g) then g.id else 0
  }

  lemma PartOneCons(games: seq<Game>)
    requires games != []
    ensures PartOne(games) == Contribution(games[0]) + PartOne(games[1..])
  {
  }

  lemma PartTwoCons(games: seq<Game>)
    requires games != []
    ensures PartTwo(games) == Power(MinimumBag(games[0].cubeSets)) + PartTwo(games[1..])
  {
  }

  lemma FiveGames(games: seq<Game>)
    requires |games| == 5
    ensures PartOne(games) == Contribution(games[0]) + Contribution(games[1]) + Contribution(games[2])
                              + Contribution(games[3]) + Contribution(games[4])
    ensures PartTwo(games) == Power(MinimumBag(games[0].cubeSets)) + Power(MinimumBag(games[1].cubeSets))
                              + Power(MinimumBag(games[2].cubeSets)) + Power(MinimumBag(games[3].cubeSets))
                              + Power(MinimumBag(games[4].cubeSets))
  {
    var t1 := games[1..];
    var t2 := t1[1..];
    var t3 := t2[1..];
    var t4 := t3[1..];
    assert t1[0] == games[1] && t2[0] == games[2] && t3[0] == games[3] && t4[0] == games[4];
    assert t4[1..] == [];
    PartOneCons(games);
    PartOneCons(t1);
    PartOneCons(t2);
    PartOneCons(t3);
    PartOneCons(t4);
    PartTwoCons(games);
    PartTwoCons(t1);
    PartTwoCons(t2);
    PartTwoCons(t3);
    PartTwoCons(t4);
  }

  lemma ExamplePartOne(games: seq<Game>)
    requires ExampleGames(games)
    ensures PartOne(games) == 8
  {
    GameOne(games[0]);
    GameTwo(games[1]);
    GameThree(games[2]);
    GameFour(games[3]);
    GameFive(games[4]);
    FiveGames(games);
  }

  lemma ExamplePartTwo(games: seq<Game>)
    requires ExampleGames(games)
    ensures PartTwo(games) == 2286
  {
    GameOne(games[0]);
    GameTwo(games[1]);
    GameThree(games[2]);
    GameFour(games[3]);
    GameFive(games[4]);
    FiveGames(games);
  }
}
