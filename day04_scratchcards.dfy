/** Day 4: scratchcards. A card's matches are its owned numbers that are also
    winning numbers; part one scores them, part two lets each card win copies
    of the cards that follow it. */
module Scratchcards {
  import opened Common

  /** A card, its number lists collected into sets. */
  datatype Card = Card(id: nat, winning: set<nat>, owned: set<nat>)

  function SetOf(xs: seq<nat>): (r: set<nat>)
    ensures forall x :: x in r <==> x in xs
  {
    set x | x in xs
  }

  /** A card as the parser builds it: repeated numbers are kept once. */
  function CardOf(id: nat, winning: seq<nat>, owned: seq<nat>): Card
  {
    Card(id, SetOf(winning), SetOf(owned))
  }

  /** `calculate_matching_numbers`: the owned numbers that are winning numbers,
      counted. */
  function Matching(card: Card): (r: nat)
    ensures r == |card.owned * card.winning|
    ensures r <= |card.owned| && r <= |card.winning|
  {
    var matches := set n | n in card.owned && n in card.winning;
    assert matches == card.owned * card.winning;
    assert card.owned * card.winning <= card.owned && card.owned * card.winning <= card.winning;
    SetLeq(card.owned * card.winning, card.owned);
    SetLeq(card.owned * card.winning, card.winning);
    |matches|
  }

  lemma SetLeq(a: set<nat>, b: set<nat>)
    requires a <= b
    ensures |a| <= |b|
  {
    assert b == a + (b - a);
  }

  /** A number listed twice counts once. */
  lemma DuplicatesCountOnce(id: nat, winning: seq<nat>, owned: seq<nat>, x: nat)
    requires x in owned
    ensures Matching(CardOf(id, winning, owned + [x])) == Matching(CardOf(id, winning, owned))
  {
    assert SetOf(owned + [x]) == SetOf(owned);
  }

  // ---------------------------------------------------------------------------
  // Part one

  function Pow2(n: nat): (r: nat)
    ensures r > n
  {
    if n == 0 then 1 else 2 * Pow2(n - 1)
  }

  /** The worth of `m` matches: nothing without a match, 1 for the first and
      doubled for each further one. */
  function Points(m: nat): (r: nat)
    ensures r == 0 <==> m == 0
    ensures r >= m
  {
    if m == 0 then 0 else Pow2(m - 1)
  }

  /** Each further match doubles the points. */
  lemma PointsDouble(m: nat)
    requires m >= 1
    ensures Points(m + 1) == 2 * Points(m)
  {
  }

  /** `calculate_points`: one step per match, starting at 1 and then doubling. */
  method CalculatePoints(card: Card) returns (points: nat)
    ensures points == Points(Matching(card))
  {
    points := 0;
    var m := Matching(card);
    for k := 0 to m
      invariant points == Points(k)
    {
      if points == 0 {
        points := 1;
      } else {
        points := points * 2;
      }
    }
  }

  /** Part one: the sum of the cards' points; it is 0 exactly when no card
      has a match, and at least the points of every card. */
  function PartOne(cards: seq<Card>): (r: nat)
    ensures r == 0 <==> forall k :: 0 <= k < |cards| ==> Matching(cards[k]) == 0
    ensures forall k :: 0 <= k < |cards| ==> r >= Points(Matching(cards[k]))
  {
    if cards == [] then 0 else Points(Matching(cards[0])) + PartOne(cards[1..])
  }

  lemma {:induction false} PartOneAppend(a: seq<Card>, b: seq<Card>)
    ensures PartOne(a + b) == PartOne(a) + PartOne(b)
  {
    if a == [] {
      assert a + b == b;
    } else {
      assert (a + b)[1..] == a[1..] + b;
      PartOneAppend(a[1..], b);
    }
  }

  // ---------------------------------------------------------------------------
  // Part two: the copy table

  type Copies = map<nat, nat>

  function Ids(cards: seq<Card>): set<nat>
  {
    set k | 0 <= k < |cards| :: cards[k].id
  }

  /** One copy of every card. */
  function InitialCopies(cards: seq<Card>): (r: Copies)
    ensures r.Keys == Ids(cards)
    ensures forall id :: id in r ==> r[id] == 1
  {
    map id | id in Ids(cards) :: 1
  }

  /** The `count` card ids from `from` on that are in the table each gain
      `amount` copies, one id after the other; ids not in the table are not
      added. */
  function AddWon(copies: Copies, from: nat, count: nat, amount: nat): (r: Copies)
    ensures r.Keys == copies.Keys
  {
    if count == 0 then copies
    else
      var prev := AddWon(copies, from, count - 1, amount);
      var last := from + count - 1;
      if last in prev then prev[last := prev[last] + amount] else prev
  }

  /** An id in the range gains `amount` copies, any other keeps its count. */
  lemma {:induction false} AddWonAt(copies: Copies, from: nat, count: nat, amount: nat, i: nat)
    requires i in copies
    ensures AddWon(copies, from, count, amount)[i]
            == if from <= i < from + count then copies[i] + amount else copies[i]
  {
    if count > 0 {
      AddWonAt(copies, from, count - 1, amount, i);
    }
  }

  /** One more id: the table as the loop over the won ids leaves it. */
  lemma AddWonNext(copies: Copies, from: nat, count: nat, amount: nat)
    ensures var prev := AddWon(copies, from, count, amount);
            var i := from + count;
            AddWon(copies, from, count + 1, amount)
            == if i in prev then prev[i := prev[i] + amount] else prev
  {
  }

  /** Every card's id has an entry in the table. */
  predicate Known(copies: Copies, cards: seq<Card>)
  {
    forall c :: c in cards ==> c.id in copies
  }

  /** The table after processing `cards` in order: each card, when its turn
      comes, adds its current number of copies to the next `Matching` ids. */
  function Process(copies: Copies, cards: seq<Card>): (r: Copies)
    requires Known(copies, cards)
    ensures r.Keys == copies.Keys
  {
    if cards == [] then copies
    else
      var prev := Process(copies, cards[..|cards| - 1]);
      var card := cards[|cards| - 1];
      AddWon(prev, card.id + 1, Matching(card), prev[card.id])
  }

  /** The sum of a table's values. */
  ghost function SumValues(copies: Copies): nat
    decreases |copies.Keys|
  {
    if copies == map[] then 0
    else
      var k :| k in copies;
      assert (copies - {k}).Keys == copies.Keys - {k};
      copies[k] + SumValues(copies - {k})
  }

  /** The sum can be taken from any key: the order does not matter. */
  lemma {:induction false} SumValuesAt(copies: Copies, x: nat)
    requires x in copies
    ensures SumValues(copies) == copies[x] + SumValues(copies - {x})
    decreases |copies.Keys|
  {
    var k :| k in copies && SumValues(copies) == copies[k] + SumValues(copies - {k});
    assert (copies - {k}).Keys == copies.Keys - {k};
    if k != x {
      SumValuesAt(copies - {k}, x);
      SumValuesAt(copies - {x}, k);
      assert (copies - {x}).Keys == copies.Keys - {x};
      assert copies - {k} - {x} == copies - {x} - {k};
    }
  }

  lemma KnownInitially(cards: seq<Card>)
    ensures Known(InitialCopies(cards), cards)
  {
    forall c | c in cards ensures c.id in Ids(cards) {
      var k :| 0 <= k < |cards| && cards[k] == c;
    }
  }

  /** One more card: the table as the loop over the cards leaves it. */
  lemma ProcessNext(copies: Copies, cards: seq<Card>, k: nat)
    requires Known(copies, cards) && k < |cards|
    ensures Known(copies, cards[..k]) && Known(copies, cards[..k + 1])
    ensures var prev := Process(copies, cards[..k]);
            cards[k].id in prev &&
            Process(copies, cards[..k + 1])
            == AddWon(prev, cards[k].id + 1, Matching(cards[k]), prev[cards[k].id])
  {
    assert cards[..k + 1][..k] == cards[..k];
    assert cards[k] in cards;
  }

  /** The inner loop of part two: the ids `from .. from + count` that have an
      entry gain `amount` copies. */
  method AddCopies(copies: Copies, from: nat, count: nat, amount: nat) returns (r: Copies)
    ensures r == AddWon(copies, from, count, amount)
  {
    r := copies;
    var i := from;
    while i < from + count
      invariant from <= i <= from + count
      invariant r == AddWon(copies, from, i - from, amount)
    {
      AddWonNext(copies, from, i - from, amount);
      if i in r {
        r := r[i := r[i] + amount];
      }
      i := i + 1;
    }
  }

  /** The sum of the table's values, taken in any key order. */
  method SumCopies(copies: Copies) returns (total: nat)
    ensures total == SumValues(copies)
  {
    var rest: Copies := copies;
    total := 0;
    while rest != map[]
      invariant total + SumValues(rest) == SumValues(copies)
      decreases |rest.Keys|
    {
      var id: nat :| id in rest;
      SumValuesAt(rest, id);
      assert (rest - {id}).Keys == rest.Keys - {id};
      total := total + rest[id];
      rest := rest - {id};
    }
  }

  /** Part two: build the table, process every card in order, sum the copies. */
  method PartTwo(cards: seq<Card>) returns (total: nat)
    ensures Known(InitialCopies(cards), cards)
    ensures total == SumValues(Process(InitialCopies(cards), cards))
  {
    KnownInitially(cards);
    ghost var init := InitialCopies(cards);
    var copies := InitialCopies(cards);
    for k := 0 to |cards|
      invariant Known(init, cards[..k])
      invariant copies == Process(init, cards[..k])
    {
      ProcessNext(init, cards, k);
      var card := cards[k];
      var won := Matching(card);
      var current := copies[card.id];
      copies := AddCopies(copies, card.id + 1, won, current);
    }
    assert cards[..|cards|] == cards;
    total := SumCopies(copies);
  }

  // ---------------------------------------------------------------------------
  // Properties of the copy table

  /** Processing only ever adds copies. */
  lemma {:induction false} ProcessNeverLowers(copies: Copies, cards: seq<Card>, x: nat)
    requires Known(copies, cards) && x in copies
    ensures Process(copies, cards)[x] >= copies[x]
    decreases |cards|
  {
    if cards != [] {
      var prev := Process(copies, cards[..|cards| - 1]);
      var card := cards[|cards| - 1];
      ProcessNeverLowers(copies, cards[..|cards| - 1], x);
      AddWonAt(prev, card.id + 1, Matching(card), prev[card.id], x);
    }
  }

  predicate IncreasingIds(cards: seq<Card>)
  {
    forall j, k :: 0 <= j < k < |cards| ==> cards[j].id < cards[k].id
  }

  /** With increasing ids, the cards from `k` on leave the count of card `k`
      as it was when card `k`'s turn came: a card only adds to later ids. */
  lemma {:induction false} LaterCardsKeepCount(copies: Copies, cards: seq<Card>, k: nat, j: nat)
    requires Known(copies, cards) && IncreasingIds(cards)
    requires k <= j <= |cards| && k < |cards|
    ensures Process(copies, cards[..j])[cards[k].id] == Process(copies, cards[..k])[cards[k].id]
    decreases j
  {
    if j > k {
      LaterCardsKeepCount(copies, cards, k, j - 1);
      assert cards[k] in cards;
      assert cards[j - 1].id >= cards[k].id;
      LaterCardStep(copies, cards, j, cards[k].id);
    }
  }

  /** A card leaves the count of every id up to its own as it was. */
  lemma LaterCardStep(copies: Copies, cards: seq<Card>, j: nat, id: nat)
    requires Known(copies, cards) && 0 < j <= |cards| && id in copies && id <= cards[j - 1].id
    ensures Known(copies, cards[..j - 1]) && Known(copies, cards[..j])
    ensures Process(copies, cards[..j])[id] == Process(copies, cards[..j - 1])[id]
  {
    ProcessNext(copies, cards, j - 1);
    var prev := Process(copies, cards[..j - 1]);
    var card := cards[j - 1];
    AddWonAt(prev, card.id + 1, Matching(card), prev[card.id], id);
  }

  /** With increasing ids, the copies card `k` hands out (its count when its
      turn comes) are its final count. */
  lemma CountFinalWhenProcessed(cards: seq<Card>, k: nat)
    requires IncreasingIds(cards) && k < |cards|
    ensures Known(InitialCopies(cards), cards) && Known(InitialCopies(cards), cards[..k])
    ensures Process(InitialCopies(cards), cards[..k])[cards[k].id]
            == Process(InitialCopies(cards), cards)[cards[k].id]
  {
    KnownInitially(cards);
    LaterCardsKeepCount(InitialCopies(cards), cards, k, |cards|);
    assert cards[..|cards|] == cards;
  }

  lemma {:induction false} SumValuesAtLeastKeys(copies: Copies)
    requires forall x :: x in copies ==> copies[x] >= 1
    ensures SumValues(copies) >= |copies.Keys|
    decreases |copies.Keys|
  {
    if copies != map[] {
      var x :| x in copies;
      SumValuesAt(copies, x);
      assert (copies - {x}).Keys == copies.Keys - {x};
      SumValuesAtLeastKeys(copies - {x});
    }
  }

  /** Part two counts at least one copy of every distinct card. */
  lemma PartTwoAtLeastCards(cards: seq<Card>)
    ensures Known(InitialCopies(cards), cards)
    ensures SumValues(Process(InitialCopies(cards), cards)) >= |Ids(cards)|
  {
    var init := InitialCopies(cards);
    KnownInitially(cards);
    var final := Process(init, cards);
    forall x | x in final ensures final[x] >= 1 {
      ProcessNeverLowers(init, cards, x);
    }
    SumValuesAtLeastKeys(final);
  }
}

/** The six cards of the puzzle's worked example. */
module ScratchcardsExample {
  import opened Scratchcards

  const One := Card(1, {41, 48, 83, 86, 17}, {83, 86, 6, 31, 17, 9, 48, 53})
  const Two := Card(2, {13, 32, 20, 16, 61}, {61, 30, 68, 82, 17, 32, 24, 19})
  const Three := Card(3, {1, 21, 53, 59, 44}, {69, 82, 63, 72, 16, 21, 14, 1})
  const Four := Card(4, {41, 92, 73, 84, 69}, {59, 84, 76, 51, 58, 5, 54, 83})
  const Five := Card(5, {87, 83, 26, 28, 32}, {88, 30, 70, 12, 93, 22, 82, 36})
  const Six := Card(6, {31, 18, 13, 56, 72}, {74, 77, 10, 23, 35, 67, 36, 11})

  lemma Matches()
    ensures Matching(One) == 4 && Matching(Two) == 2 && Matching(Three) == 2
    ensures Matching(Four) == 1 && Matching(Five) == 0 && Matching(Six) == 0
  {
    MatchesOne();
    MatchesTwo();
    MatchesThree();
    MatchesFour();
    MatchesFive();
    MatchesSix();
  }

  lemma MatchesOne()
    ensures Matching(One) == 4
  {
    assert One.owned * One.winning == {48, 83, 86, 17};
  }

  lemma MatchesTwo()
    ensures Matching(Two) == 2
  {
    assert Two.owned * Two.winning == {32, 61};
  }

  lemma MatchesThree()
    ensures Matching(Three) == 2
  {
    assert Three.owned * Three.winning == {1, 21};
  }

  lemma MatchesFour()
    ensures Matching(Four) == 1
  {
    assert Four.owned * Four.winning == {84};
  }

  lemma MatchesFive()
    ensures Matching(Five) == 0
  {
    assert Five.owned * Five.winning == {};
  }

  lemma MatchesSix()
    ensures Matching(Six) == 0
  {
    assert Six.owned * Six.winning == {};
  }

  /** Points 8, 2, 2, 1, 0 and 0: 13 in all. */
  lemma ExamplePartOne(cards: seq<Card>)
    requires cards == [One, Two, Three, Four, Five, Six]
    ensures PartOne(cards) == 13
  {
    Matches();
    assert Points(4) == 8;
    assert PartOne(cards[5..]) == 0;
    assert PartOne(cards[4..]) == 0;
    assert PartOne(cards[3..]) == 1;
    assert PartOne(cards[2..]) == 3;
    assert PartOne(cards[1..]) == 5;
  }

  const Start: Copies := map[1 := 1, 2 := 1, 3 := 1, 4 := 1, 5 := 1, 6 := 1]
  const AfterOne: Copies := map[1 := 1, 2 := 2, 3 := 2, 4 := 2, 5 := 2, 6 := 1]
  const AfterTwo: Copies := map[1 := 1, 2 := 2, 3 := 4, 4 := 4, 5 := 2, 6 := 1]
  const AfterThree: Copies := map[1 := 1, 2 := 2, 3 := 4, 4 := 8, 5 := 6, 6 := 1]
  const AfterFour: Copies := map[1 := 1, 2 := 2, 3 := 4, 4 := 8, 5 := 14, 6 := 1]

  lemma Initial(cards: seq<Card>)
    requires cards == [One, Two, Three, Four, Five, Six]
    ensures InitialCopies(cards) == Start
  {
    assert Ids(cards) == {1, 2, 3, 4, 5, 6} by {
      assert cards[0].id == 1 && cards[1].id == 2 && cards[2].id == 3;
      assert cards[3].id == 4 && cards[4].id == 5 && cards[5].id == 6;
    }
  }

  /** Card 1 wins one copy each of cards 2 to 5. */
  lemma StepOne()
    ensures AddWon(Start, 2, 4, 1) == AfterOne
  {
  }

  /** The two copies of card 2 win two copies each of cards 3 and 4. */
  lemma StepTwo()
    ensures AddWon(AfterOne, 3, 2, 2) == AfterTwo
  {
  }

  /** The four copies of card 3 win four copies each of cards 4 and 5. */
  lemma StepThree()
    ensures AddWon(AfterTwo, 4, 2, 4) == AfterThree
  {
  }

  /** The eight copies of card 4 win eight copies of card 5. */
  lemma StepFour()
    ensures AddWon(AfterThree, 5, 1, 8) == AfterFour
  {
  }

  /** Adding a new key adds its value to the sum. */
  lemma SumValuesAdd(copies: Copies, id: nat, v: nat)
    requires id !in copies
    ensures SumValues(copies[id := v]) == v + SumValues(copies)
  {
    SumValuesAt(copies[id := v], id);
    assert copies[id := v] - {id} == copies;
  }

  /** The final table sums to 30 copies. */
  lemma FinalSum()
    ensures SumValues(AfterFour) == 30
  {
    SumValuesAdd(map[], 1, 1);
    SumValuesAdd(map[1 := 1], 2, 2);
    SumValuesAdd(map[1 := 1, 2 := 2], 3, 4);
    SumValuesAdd(map[1 := 1, 2 := 2, 3 := 4], 4, 8);
    SumValuesAdd(map[1 := 1, 2 := 2, 3 := 4, 4 := 8], 5, 14);
    SumValuesAdd(map[1 := 1, 2 := 2, 3 := 4, 4 := 8, 5 := 14], 6, 1);
  }

  /** One turn of the example: the table before card `k` and after it. */
  lemma ExampleTurn(cards: seq<Card>, k: nat, before: Copies, after: Copies, from: nat, won: nat, amount: nat)
    requires Known(InitialCopies(cards), cards) && k < |cards|
    requires Process(InitialCopies(cards), cards[..k]) == before
    requires from == cards[k].id + 1 && won == Matching(cards[k])
    requires cards[k].id in before && before[cards[k].id] == amount
    requires AddWon(before, from, won, amount) == after
    ensures Known(InitialCopies(cards), cards[..k + 1])
    ensures Process(InitialCopies(cards), cards[..k + 1]) == after
  {
    ProcessNext(InitialCopies(cards), cards, k);
  }

  /** What the example's table depends on: the ids and the match counts. */
  predicate ExampleShape(cards: seq<Card>)
  {
    |cards| == 6 &&
    cards[0].id == 1 && cards[1].id == 2 && cards[2].id == 3 &&
    cards[3].id == 4 && cards[4].id == 5 && cards[5].id == 6 &&
    Matching(cards[0]) == 4 && Matching(cards[1]) == 2 && Matching(cards[2]) == 2 &&
    Matching(cards[3]) == 1 && Matching(cards[4]) == 0 && Matching(cards[5]) == 0
  }

  lemma ExampleFirstTurn(cards: seq<Card>)
    requires ExampleShape(cards) && InitialCopies(cards) == Start
    ensures Known(InitialCopies(cards), cards) && Known(InitialCopies(cards), cards[..1])
    ensures Process(InitialCopies(cards), cards[..1]) == AfterOne
  {
    KnownInitially(cards);
    assert cards[..0] == [];
    StepOne();
    ExampleTurn(cards, 0, Start, AfterOne, 2, 4, 1);
  }

  lemma ExampleFirstTurns(cards: seq<Card>)
    requires ExampleShape(cards) && InitialCopies(cards) == Start
    ensures Known(InitialCopies(cards), cards) && Known(InitialCopies(cards), cards[..2])
    ensures Process(InitialCopies(cards), cards[..2]) == AfterTwo
  {
    ExampleFirstTurn(cards);
    StepTwo();
    ExampleTurn(cards, 1, AfterOne, AfterTwo, 3, 2, 2);
  }

  lemma ExampleMiddleTurns(cards: seq<Card>)
    requires ExampleShape(cards) && InitialCopies(cards) == Start
    ensures Known(InitialCopies(cards), cards) && Known(InitialCopies(cards), cards[..4])
    ensures Process(InitialCopies(cards), cards[..4]) == AfterFour
  {
    ExampleFirstTurns(cards);
    StepThree();
    ExampleTurn(cards, 2, AfterTwo, AfterThree, 4, 2, 4);
    StepFour();
    ExampleTurn(cards, 3, AfterThree, AfterFour, 5, 1, 8);
  }

  lemma ExampleTable(cards: seq<Card>)
    requires ExampleShape(cards) && InitialCopies(cards) == Start
    ensures Known(InitialCopies(cards), cards)
    ensures Process(InitialCopies(cards), cards) == AfterFour
  {
    ExampleMiddleTurns(cards);
    ExampleTurn(cards, 4, AfterFour, AfterFour, 6, 0, 14);
    ExampleTurn(cards, 5, AfterFour, AfterFour, 7, 0, 1);
    assert cards[..6] == cards;
  }

  /** Copies 1, 2, 4, 8, 14 and 1: 30 scratchcards in all. */
  lemma ExamplePartTwo(cards: seq<Card>)
    requires cards == [One, Two, Three, Four, Five, Six]
    ensures Known(InitialCopies(cards), cards)
    ensures SumValues(Process(InitialCopies(cards), cards)) == 30
  {
    Initial(cards);
    Shape(cards);
    ExampleTable(cards);
    FinalSum();
  }

  lemma Shape(cards: seq<Card>)
    requires cards == [One, Two, Three, Four, Five, Six]
    ensures ExampleShape(cards)
  {
    assert cards[0] == One && cards[1] == Two && cards[2] == Three;
    assert cards[3] == Four && cards[4] == Five && cards[5] == Six;
    assert Matching(cards[0]) == 4 by { MatchesOne(); }
    assert Matching(cards[1]) == 2 by { MatchesTwo(); }
    assert Matching(cards[2]) == 2 by { MatchesThree(); }
    assert Matching(cards[3]) == 1 by { MatchesFour(); }
    assert Matching(cards[4]) == 0 by { MatchesFive(); }
    assert Matching(cards[5]) == 0 by { MatchesSix(); }
  }
}
