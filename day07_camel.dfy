/** Day 7: Camel Cards. Hands of cards are ranked by their type (how the
    cards repeat), then card by card; each hand wins its bid times its rank.
    Part two turns J into a joker: the weakest card for ties, and a wild card
    that joins the most frequent other card when the type is worked out. */
module CamelCards {
  import opened Common

  // ---------------------------------------------------------------------------
  // Cards

  datatype Card = Two | Three | Four | Five | Six | Seven | Eight | Nine | T | J | Q | K | A

  /** The card's discriminant: its face value, with T, J, Q, K and A worth
      10 to 14. The derived order on cards (the key order of the solution's
      `BTreeMap`) is the order of these values. */
  function Value(c: Card): (v: nat)
    ensures 2 <= v <= 14
  {
    match c
    case Two => 2
    case Three => 3
    case Four => 4
    case Five => 5
    case Six => 6
    case Seven => 7
    case Eight => 8
    case Nine => 9
    case T => 10
    case J => 11
    case Q => 12
    case K => 13
    case A => 14
  }

  /** `Card::strength`: the value, except that a joker is worth 1. */
  function Strength(c: Card, joker: bool): (s: nat)
    ensures 1 <= s <= 14
    ensures s == 1 <==> joker && c == J
  {
    if joker && c == J then 1 else Value(c)
  }

  /** Different cards have different values and different strengths; under
      joker rules J is weaker than every other card, and otherwise strength
      is the face value. */
  lemma StrengthOrder(c: Card, d: Card, joker: bool)
    ensures c != d ==> Value(c) != Value(d) && Strength(c, joker) != Strength(d, joker)
    ensures joker && c == J && d != J ==> Strength(c, joker) < Strength(d, joker)
    ensures !joker ==> Strength(c, joker) == Value(c)
  {
  }

  /** The letter of each card. */
  function Symbol(c: Card): char
  {
    match c
    case Two => '2'
    case Three => '3'
    case Four => '4'
    case Five => '5'
    case Six => '6'
    case Seven => '7'
    case Eight => '8'
    case Nine => '9'
    case T => 'T'
    case J => 'J'
    case Q => 'Q'
    case K => 'K'
    case A => 'A'
  }

  /** `From<char> for Card`: any other character is `unreachable!`. */
  function CardOf(ch: char): (r: Result<Card>)
    ensures r.Ok? ==> Symbol(r.value) == ch
  {
    match ch
    case 'A' => Ok(A)
    case 'K' => Ok(K)
    case 'Q' => Ok(Q)
    case 'J' => Ok(J)
    case 'T' => Ok(T)
    case '9' => Ok(Nine)
    case '8' => Ok(Eight)
    case '7' => Ok(Seven)
    case '6' => Ok(Six)
    case '5' => Ok(Five)
    case '4' => Ok(Four)
    case '3' => Ok(Three)
    case '2' => Ok(Two)
    case _ => Panic
  }

  /** Exactly the thirteen card letters convert, each to its own card. */
  lemma CardOfSymbol(c: Card, ch: char)
    ensures CardOf(Symbol(c)) == Ok(c)
    ensures CardOf(ch).Ok? ==> Symbol(CardOf(ch).value) == ch
  {
  }

  /** The cards of a hand from position `i` on, converted left to right;
      the first character that is not a card letter panics. */
  function CardsFrom(s: string, i: nat): Result<seq<Card>>
    requires i <= |s|
    decreases |s| - i
  {
    if i == |s| then Ok([])
    else
      match CardOf(s[i])
      case Panic => Panic
      case Ok(c) =>
        match CardsFrom(s, i + 1)
        case Panic => Panic
        case Ok(rest) => Ok([c] + rest)
  }

  /** The cards of a hand, `cards.chars().map(Into::into)`. */
  function CardsOf(s: string): Result<seq<Card>>
  {
    CardsFrom(s, 0)
  }

  /** Converting from `i` on succeeds exactly when every character from `i`
      on is a card letter, and then gives one card per character, each
      written by that character. */
  lemma {:induction false} CardsFromFacts(s: string, i: nat)
    requires i <= |s|
    decreases |s| - i
    ensures CardsFrom(s, i).Panic? <==> exists k :: i <= k < |s| && CardOf(s[k]).Panic?
    ensures CardsFrom(s, i).Ok? ==> |CardsFrom(s, i).value| == |s| - i
    ensures CardsFrom(s, i).Ok? ==> forall k :: 0 <= k < |s| - i ==> Symbol(CardsFrom(s, i).value[k]) == s[i + k]
  {
    if i < |s| {
      CardsFromFacts(s, i + 1);
      CardOfSymbol(Two, s[i]);
      if CardsFrom(s, i).Ok? {
        var r := CardsFrom(s, i).value;
        assert forall k :: 1 <= k < |s| - i ==> r[k] == CardsFrom(s, i + 1).value[k - 1];
      }
    }
  }

  /** The cards read back as the hand's letters, and the conversion panics
      exactly when some character is not a card letter. */
  lemma CardsOfFacts(s: string)
    ensures CardsOf(s).Ok? ==> |CardsOf(s).value| == |s| && forall k :: 0 <= k < |s| ==> Symbol(CardsOf(s).value[k]) == s[k]
    ensures CardsOf(s).Panic? <==> exists k :: 0 <= k < |s| && CardOf(s[k]).Panic?
  {
    CardsFromFacts(s, 0);
  }

  // ---------------------------------------------------------------------------
  // The count map

  /** One entry of the solution's `BTreeMap<&Card, u32>`. */
  datatype Entry = Entry(card: Card, amount: nat)

  /** The count map as its entries in key order, the order in which a
      `BTreeMap` keeps and iterates them; `len()` is the number of entries. */
  type Tally = seq<Entry>

  /** Keys strictly increase, so no card has two entries. */
  predicate Ordered(t: Tally)
  {
    forall i, j :: 0 <= i < j < |t| ==> Value(t[i].card) < Value(t[j].card)
  }

  /** Every counted card was seen at least once. */
  predicate Positive(t: Tally)
  {
    forall i :: 0 <= i < |t| ==> t[i].amount > 0
  }

  /** `c` is a key of the map. */
  predicate Has(t: Tally, c: Card)
  {
    t != [] && (t[0].card == c || Has(t[1..], c))
  }

  /** The amount stored for `c`, 0 when it has no entry. */
  function AmountOf(t: Tally, c: Card): nat
  {
    if t == [] then 0 else if t[0].card == c then t[0].amount else AmountOf(t[1..], c)
  }

  /** The amounts added up. */
  function Total(t: Tally): nat
  {
    if t == [] then 0 else t[0].amount + Total(t[1..])
  }

  /** `entry(card).and_modify(|amount| *amount += 1).or_insert(1)`. */
  function Tick(t: Tally, c: Card): Tally
  {
    if t == [] then [Entry(c, 1)]
    else if t[0].card == c then [Entry(c, t[0].amount + 1)] + t[1..]
    else if Value(c) < Value(t[0].card) then [Entry(c, 1)] + t
    else [t[0]] + Tick(t[1..], c)
  }

  /** The entry at `i` is a key. */
  lemma {:induction false} HasAt(t: Tally, i: nat)
    requires i < |t|
    ensures Has(t, t[i].card)
  {
    if i > 0 {
      assert t[1..][i - 1] == t[i];
      HasAt(t[1..], i - 1);
    }
  }

  /** A key has an entry. */
  lemma {:induction false} HasSome(t: Tally, c: Card) returns (i: nat)
    requires Has(t, c)
    ensures i < |t| && t[i].card == c && t[i].amount == AmountOf(t, c)
  {
    if t[0].card == c {
      i := 0;
    } else {
      var k := HasSome(t[1..], c);
      i := k + 1;
    }
  }

  /** In an ordered map every key after the first is above it, and nothing
      below the first key is a key. */
  lemma {:induction false} KeysAbove(t: Tally, c: Card)
    requires Ordered(t) && t != []
    ensures Has(t[1..], c) ==> Value(t[0].card) < Value(c)
    ensures Value(c) < Value(t[0].card) ==> !Has(t, c) && AmountOf(t, c) == 0
  {
    if Has(t[1..], c) {
      var i := HasSome(t[1..], c);
      assert t[1..][i] == t[i + 1];
    }
    if Value(c) < Value(t[0].card) && Has(t, c) {
      var i := HasSome(t, c);
    }
    if Value(c) < Value(t[0].card) {
      AmountZero(t, c);
    }
  }

  /** No entry, no amount. */
  lemma {:induction false} AmountZero(t: Tally, c: Card)
    ensures !Has(t, c) ==> AmountOf(t, c) == 0
  {
    if t != [] && !Has(t, c) {
      AmountZero(t[1..], c);
    }
  }

  /** An entry below every entry of an ordered map can go in front of it. */
  lemma Prepend(e: Entry, t: Tally)
    requires Ordered(t)
    requires forall d :: Has(t, d) ==> Value(e.card) < Value(d)
    ensures Ordered([e] + t)
  {
    forall j | 0 <= j < |t| ensures Value(e.card) < Value(t[j].card) {
      HasAt(t, j);
    }
    assert forall j :: 1 <= j < |[e] + t| ==> ([e] + t)[j] == t[j - 1];
  }

  lemma OrderedTail(t: Tally)
    requires Ordered(t) && Positive(t) && t != []
    ensures Ordered(t[1..]) && Positive(t[1..])
  {
    assert forall j :: 0 <= j < |t| - 1 ==> t[1..][j] == t[j + 1];
  }

  /** Counting one more card keeps the map ordered and positive and adds
      the card to its keys. */
  lemma {:induction false} TickFacts(t: Tally, c: Card)
    requires Ordered(t) && Positive(t)
    ensures Ordered(Tick(t, c)) && Positive(Tick(t, c))
    ensures forall d :: Has(Tick(t, c), d) <==> Has(t, d) || d == c
  {
    var r := Tick(t, c);
    if t == [] {
    } else if t[0].card == c {
      assert r[1..] == t[1..];
      assert forall i :: 0 <= i < |t| ==> r[i].card == t[i].card;
    } else if Value(c) < Value(t[0].card) {
      forall d | Has(t, d) ensures Value(c) < Value(d) {
        KeysAbove(t, d);
      }
      Prepend(Entry(c, 1), t);
      assert r[1..] == t;
    } else {
      StrengthOrder(c, t[0].card, false);
      var rest := t[1..];
      OrderedTail(t);
      TickFacts(rest, c);
      forall d | Has(Tick(rest, c), d) ensures Value(t[0].card) < Value(d) {
        KeysAbove(t, d);
      }
      Prepend(t[0], Tick(rest, c));
      assert r[1..] == Tick(rest, c);
    }
  }

  /** Counting one more card adds one to that card's amount and to the
      total, and adds an entry exactly when the card is new. */
  lemma {:induction false} TickCounts(t: Tally, c: Card)
    requires Ordered(t) && Positive(t)
    ensures forall d :: AmountOf(Tick(t, c), d) == AmountOf(t, d) + (if d == c then 1 else 0)
    ensures |Tick(t, c)| == |t| + (if Has(t, c) then 0 else 1)
    ensures Total(Tick(t, c)) == Total(t) + 1
  {
    var r := Tick(t, c);
    if t == [] {
    } else if t[0].card == c {
      assert r[1..] == t[1..];
    } else if Value(c) < Value(t[0].card) {
      KeysAbove(t, c);
      assert r[1..] == t;
    } else {
      var rest := t[1..];
      OrderedTail(t);
      TickCounts(rest, c);
      assert r[1..] == Tick(rest, c);
    }
  }

  /** The count map of a hand, one card after another. */
  function TallyOf(cards: seq<Card>): Tally
  {
    if cards == [] then [] else Tick(TallyOf(cards[..|cards| - 1]), cards[|cards| - 1])
  }

  /** The map of a hand is ordered and positive, its keys are the hand's
      cards, and its amounts add up to the number of cards, so it has at most
      as many entries as cards and at least one when there are cards. */
  lemma {:induction false} TallyFacts(cards: seq<Card>)
    ensures Ordered(TallyOf(cards)) && Positive(TallyOf(cards))
    ensures forall c :: Has(TallyOf(cards), c) <==> c in cards
    ensures Total(TallyOf(cards)) == |cards|
    ensures |TallyOf(cards)| <= |cards| && (cards != [] ==> |TallyOf(cards)| >= 1)
  {
    if cards != [] {
      var front, last := cards[..|cards| - 1], cards[|cards| - 1];
      TallyFacts(front);
      TickFacts(TallyOf(front), last);
      TickCounts(TallyOf(front), last);
      assert cards == front + [last];
    }
  }

  /** Each card's amount is its multiplicity in the hand. */
  lemma {:induction false} TallyCounts(cards: seq<Card>)
    ensures forall c :: AmountOf(TallyOf(cards), c) == multiset(cards)[c]
  {
    if cards != [] {
      var front, last := cards[..|cards| - 1], cards[|cards| - 1];
      var t := TallyOf(front);
      assert Ordered(t) && Positive(t) by { TallyFacts(front); }
      TallyCounts(front);
      TickCounts(t, last);
      assert cards == front + [last];
      assert multiset(cards) == multiset(front) + multiset{last};
      forall c ensures AmountOf(TallyOf(cards), c) == multiset(cards)[c] {
        assert AmountOf(Tick(t, last), c) == AmountOf(t, c) + (if c == last then 1 else 0);
      }
    }
  }

  /** `HandType::new`'s counting loop. */
  method CountCards(cards: seq<Card>) returns (amounts: Tally)
    ensures amounts == TallyOf(cards)
  {
    amounts := [];
    for i := 0 to |cards|
      invariant amounts == TallyOf(cards[..i])
    {
      assert cards[..i + 1][..i] == cards[..i];
      amounts := Tick(amounts, cards[i]);
    }
    assert cards[..|cards|] == cards;
  }

  /** Under a strictly increasing key order, the amount stored for the key at
      `i` is the amount at `i`. */
  lemma {:induction false} AmountAt(t: Tally, i: nat)
    requires Ordered(t) && i < |t|
    ensures AmountOf(t, t[i].card) == t[i].amount
  {
    if i > 0 {
      assert t[1..][i - 1] == t[i];
      assert Ordered(t[1..]) by {
        assert forall j :: 0 <= j < |t| - 1 ==> t[1..][j] == t[j + 1];
      }
      AmountAt(t[1..], i - 1);
    }
  }

  /** `BTreeMap::remove`: drops the entry for `c`, if there is one. */
  function Remove(t: Tally, c: Card): (r: Tally)
    ensures |r| == |t| - (if Has(t, c) then 1 else 0)
  {
    if t == [] then []
    else if t[0].card == c then t[1..]
    else [t[0]] + Remove(t[1..], c)
  }

  /** Removing a card keeps the map ordered and positive, takes that card's
      key and amount away and leaves every other card as it was. */
  lemma {:induction false} RemoveFacts(t: Tally, c: Card)
    requires Ordered(t) && Positive(t)
    ensures Ordered(Remove(t, c)) && Positive(Remove(t, c))
    ensures forall d :: Has(Remove(t, c), d) <==> Has(t, d) && d != c
    ensures forall d :: AmountOf(Remove(t, c), d) == (if d == c then 0 else AmountOf(t, d))
    ensures Total(Remove(t, c)) + AmountOf(t, c) == Total(t)
  {
    if t != [] {
      var rest := t[1..];
      OrderedTail(t);
      if t[0].card == c {
        KeysAbove(t, c);
        AmountZero(rest, c);
      } else {
        RemoveFacts(rest, c);
        forall d | Has(Remove(rest, c), d) ensures Value(t[0].card) < Value(d) {
          KeysAbove(t, d);
        }
        Prepend(t[0], Remove(rest, c));
        assert Remove(t, c)[1..] == Remove(rest, c);
      }
    }
  }

  /** `entry(c).and_modify(|amount| *amount += k)`: adds `k` to the entry for
      `c` and inserts nothing when there is none. */
  function AddTo(t: Tally, c: Card, k: nat): Tally
  {
    if t == [] then []
    else if t[0].card == c then [Entry(c, t[0].amount + k)] + t[1..]
    else [t[0]] + AddTo(t[1..], c, k)
  }

  /** Adding to an entry changes no key and lowers no amount. */
  lemma {:induction false} AddToKeys(t: Tally, c: Card, k: nat)
    ensures |AddTo(t, c, k)| == |t|
    ensures forall i :: 0 <= i < |t| ==> AddTo(t, c, k)[i].card == t[i].card
    ensures forall i :: 0 <= i < |t| ==> AddTo(t, c, k)[i].amount >= t[i].amount
  {
    if t != [] && t[0].card != c {
      AddToKeys(t[1..], c, k);
      assert forall i :: 1 <= i < |t| ==> AddTo(t, c, k)[i] == AddTo(t[1..], c, k)[i - 1];
    }
  }

  /** Adding to an entry changes only that card's amount, and only when the
      card is a key. */
  lemma {:induction false} AddToAmounts(t: Tally, c: Card, k: nat)
    ensures forall d :: AmountOf(AddTo(t, c, k), d) == AmountOf(t, d) + (if d == c && Has(t, c) then k else 0)
    ensures forall d :: Has(AddTo(t, c, k), d) <==> Has(t, d)
    ensures Total(AddTo(t, c, k)) == Total(t) + (if Has(t, c) then k else 0)
  {
    if t != [] && t[0].card != c {
      AddToAmounts(t[1..], c, k);
      assert AddTo(t, c, k)[1..] == AddTo(t[1..], c, k);
    }
  }

  /** The entry that comes first when the entries are sorted by amount,
      largest first, with the stable `sort_by`: the first entry in key order
      whose amount is the largest. */
  function BiggestAt(t: Tally): (k: nat)
    requires t != []
    ensures k < |t|
  {
    if |t| == 1 then 0
    else
      var k := BiggestAt(t[1..]) + 1;
      if t[0].amount >= t[k].amount then 0 else k
  }

  /** No entry has a larger amount than the chosen one, and every entry before
      it has a smaller one. */
  lemma {:induction false} BiggestFirstMax(t: Tally)
    requires t != []
    ensures forall i :: 0 <= i < |t| ==> t[i].amount <= t[BiggestAt(t)].amount
    ensures forall i :: 0 <= i < BiggestAt(t) ==> t[i].amount < t[BiggestAt(t)].amount
  {
    if |t| > 1 {
      BiggestFirstMax(t[1..]);
      assert forall i :: 1 <= i < |t| ==> t[1..][i - 1] == t[i];
    }
  }

  /** Part two's joker step: unless the hand has a single kind of card, the
      jokers are taken out and added to the most frequent remaining card. */
  function JokerTally(t: Tally, joker: bool): Tally
  {
    if joker && |t| != 1 && Has(t, J) then
      var rest := Remove(t, J);
      AddTo(rest, rest[BiggestAt(rest)].card, AmountOf(t, J))
    else t
  }

  /** The card the jokers join. */
  function JokerTarget(t: Tally): Card
    requires |t| != 1 && Has(t, J)
  {
    var rest := Remove(t, J);
    rest[BiggestAt(rest)].card
  }

  /** The jokers join a most frequent card other than J, the first in key
      order among the most frequent. */
  lemma JokerTargetMax(t: Tally)
    requires Ordered(t) && Positive(t) && |t| != 1 && Has(t, J)
    ensures JokerTarget(t) != J && Has(t, JokerTarget(t))
    ensures forall d :: d != J ==> AmountOf(t, d) <= AmountOf(t, JokerTarget(t))
    ensures forall d :: d != J && AmountOf(t, d) == AmountOf(t, JokerTarget(t)) ==> Value(JokerTarget(t)) <= Value(d)
  {
    var rest := Remove(t, J);
    RemoveFacts(t, J);
    var k := BiggestAt(rest);
    var b := rest[k].card;
    HasAt(rest, k);
    AmountAt(rest, k);
    BiggestFirstMax(rest);
    forall d | d != J ensures AmountOf(t, d) <= AmountOf(t, b) {
      if Has(rest, d) {
        var i := HasSome(rest, d);
      } else {
        AmountZero(rest, d);
      }
    }
    forall d | d != J && AmountOf(t, d) == AmountOf(t, b) ensures Value(b) <= Value(d) {
      if Has(rest, d) {
        var i := HasSome(rest, d);
        assert Value(rest[i].card) < Value(b) ==> i < k;
      } else {
        AmountZero(rest, d);
      }
    }
  }

  /** When the jokers are moved, the map loses the joker's entry and keeps its
      order, positivity and total; the target gains the jokers' amount and
      every other card keeps its own. */
  lemma JokerFacts(t: Tally)
    requires Ordered(t) && Positive(t) && |t| != 1 && Has(t, J)
    ensures Ordered(JokerTally(t, true)) && Positive(JokerTally(t, true))
    ensures |JokerTally(t, true)| == |t| - 1 && !Has(JokerTally(t, true), J)
    ensures Total(JokerTally(t, true)) == Total(t)
    ensures forall d :: (AmountOf(JokerTally(t, true), d) ==
      if d == J then 0 else if d == JokerTarget(t) then AmountOf(t, d) + AmountOf(t, J) else AmountOf(t, d))
  {
    var rest := Remove(t, J);
    RemoveFacts(t, J);
    var b := JokerTarget(t);
    HasAt(rest, BiggestAt(rest));
    AddToKeys(rest, b, AmountOf(t, J));
    AddToAmounts(rest, b, AmountOf(t, J));
    var r := AddTo(rest, b, AmountOf(t, J));
    assert forall i :: 0 <= i < |r| ==> r[i].card == rest[i].card;
  }

  /** The total is at least the number of entries when every amount is
      positive. */
  lemma {:induction false} TotalAtLeast(t: Tally)
    requires Positive(t)
    ensures Total(t) >= |t|
  {
    if t != [] {
      OrderedTailPositive(t);
      TotalAtLeast(t[1..]);
    }
  }

  lemma OrderedTailPositive(t: Tally)
    requires Positive(t) && t != []
    ensures Positive(t[1..])
  {
    assert forall j :: 0 <= j < |t| - 1 ==> t[1..][j] == t[j + 1];
  }

  // ---------------------------------------------------------------------------
  // Hand types

  datatype HandType = HighCard | OnePair | TwoPair | ThreeOfAKind | FullHouse | FourOfAKind | FiveOfAKind

  /** The discriminant, by which hand types are ordered. */
  function Rank(h: HandType): (n: nat)
    ensures 1 <= n <= 7
  {
    match h
    case HighCard => 1
    case OnePair => 2
    case TwoPair => 3
    case ThreeOfAKind => 4
    case FullHouse => 5
    case FourOfAKind => 6
    case FiveOfAKind => 7
  }

  /** `amounts.values().any(|amount| *amount == k)`. */
  predicate AnyAmount(t: Tally, k: nat)
  {
    t != [] && (t[0].amount == k || AnyAmount(t[1..], k))
  }

  /** The number of entries whose amount is `k`. */
  function CountAmount(t: Tally, k: nat): nat
  {
    if t == [] then 0 else (if t[0].amount == k then 1 else 0) + CountAmount(t[1..], k)
  }

  /** Some amount is `k` exactly when the count of amounts equal to `k` is
      not zero. */
  lemma {:induction false} AnyAmountCount(t: Tally, k: nat)
    ensures AnyAmount(t, k) <==> CountAmount(t, k) > 0
  {
    if t != [] {
      AnyAmountCount(t[1..], k);
    }
  }

  /** The `match amounts.len()`: the number of kinds decides the type, and
      two or three kinds are told apart by a four or a three; any other
      number of kinds is `unreachable!`. */
  function Classify(t: Tally): Result<HandType>
  {
    if |t| == 1 then Ok(FiveOfAKind)
    else if |t| == 2 then Ok(if AnyAmount(t, 4) then FourOfAKind else FullHouse)
    else if |t| == 3 then Ok(if AnyAmount(t, 3) then ThreeOfAKind else TwoPair)
    else if |t| == 4 then Ok(OnePair)
    else if |t| == 5 then Ok(HighCard)
    else Panic
  }

  /** `HandType::new`. */
  function HandTypeOf(cards: seq<Card>, joker: bool): Result<HandType>
  {
    Classify(JokerTally(TallyOf(cards), joker))
  }

  /** `HandType::new`, step by step: count, move the jokers, classify. */
  method NewHandType(cards: seq<Card>, joker: bool) returns (r: Result<HandType>)
    ensures r == HandTypeOf(cards, joker)
  {
    var amounts := CountCards(cards);
    if joker && |amounts| != 1 && Has(amounts, J) {
      var jokers := AmountOf(amounts, J);
      amounts := Remove(amounts, J);
      var biggest := amounts[BiggestAt(amounts)].card;
      amounts := AddTo(amounts, biggest, jokers);
    }
    r := Classify(amounts);
  }

  /** Fewer kinds of card always make a strictly better type: the types of
      one to five kinds occupy disjoint bands of ranks, in reverse order. */
  lemma FewerKindsRankHigher(t: Tally, u: Tally)
    requires 1 <= |t| < |u| <= 5
    ensures Classify(t).Ok? && Classify(u).Ok?
    ensures Rank(Classify(t).value) > Rank(Classify(u).value)
  {
  }

  /** A map with one entry holds only its key. */
  lemma SingleKey(t: Tally, c: Card)
    requires |t| == 1
    ensures Has(t, c) <==> t[0].card == c
  {
    assert t[1..] == [];
  }

  /** A hand of one to five cards always has a type, and an empty hand
      panics. */
  lemma HandTypeDefined(cards: seq<Card>, joker: bool)
    ensures cards == [] ==> HandTypeOf(cards, joker).Panic?
    ensures 1 <= |cards| <= 5 ==> HandTypeOf(cards, joker).Ok?
  {
    var t := TallyOf(cards);
    TallyFacts(cards);
    if joker && |t| != 1 && Has(t, J) {
      JokerFacts(t);
    }
  }

  /** Jokers never make a hand worse: with J in the hand and some other card
      beside it, the joker rules give a strictly better type; without J the
      type is the same, and a hand of jokers only is five of a kind. */
  lemma JokerNeverWorse(cards: seq<Card>)
    requires 1 <= |cards| <= 5
    ensures HandTypeOf(cards, true).Ok? && HandTypeOf(cards, false).Ok?
    ensures Rank(HandTypeOf(cards, true).value) >= Rank(HandTypeOf(cards, false).value)
    ensures J in cards && (exists i :: 0 <= i < |cards| && cards[i] != J) ==>
      Rank(HandTypeOf(cards, true).value) > Rank(HandTypeOf(cards, false).value)
    ensures J !in cards ==> HandTypeOf(cards, true) == HandTypeOf(cards, false)
    ensures (forall i :: 0 <= i < |cards| ==> cards[i] == J) ==> HandTypeOf(cards, true) == Ok(FiveOfAKind)
  {
    var t := TallyOf(cards);
    TallyFacts(cards);
    HandTypeDefined(cards, true);
    HandTypeDefined(cards, false);
    if |t| != 1 && Has(t, J) {
      JokerFacts(t);
      FewerKindsRankHigher(JokerTally(t, true), t);
    }
    if exists i :: 0 <= i < |cards| && cards[i] != J {
      var i :| 0 <= i < |cards| && cards[i] != J;
      if |t| == 1 {
        SingleKey(t, J);
        SingleKey(t, cards[i]);
      }
    }
    if forall i :: 0 <= i < |cards| ==> cards[i] == J {
      HasAt(t, 0);
      if |t| > 1 {
        HasAt(t, 1);
      }
    }
  }

  /** The first entry and the rest: how the total and the amount tests
      unfold once. */
  lemma Unfold(t: Tally, k: nat)
    requires t != []
    ensures Total(t) == t[0].amount + Total(t[1..])
    ensures CountAmount(t, k) == (if t[0].amount == k then 1 else 0) + CountAmount(t[1..], k)
    ensures AnyAmount(t, k) <==> t[0].amount == k || AnyAmount(t[1..], k)
  {
  }

  /** What each type means for a hand of five cards, given its map: five of
      a kind is one amount of 5, four of a kind an amount of 4, a full house
      a 3 and a 2, three of a kind a 3 without a 2, two pair two 2s, one pair
      a single 2 without a 3, and high card five 1s. Such a hand never
      panics. */
  lemma TypeByAmounts(t: Tally)
    requires Positive(t) && Total(t) == 5
    ensures Classify(t).Ok?
    ensures Classify(t).value == FiveOfAKind <==> CountAmount(t, 5) == 1
    ensures Classify(t).value == FourOfAKind <==> CountAmount(t, 4) == 1
    ensures Classify(t).value == FullHouse <==> CountAmount(t, 3) == 1 && CountAmount(t, 2) == 1
    ensures Classify(t).value == ThreeOfAKind <==> CountAmount(t, 3) == 1 && CountAmount(t, 2) == 0
    ensures Classify(t).value == TwoPair <==> CountAmount(t, 2) == 2
    ensures Classify(t).value == OnePair <==> CountAmount(t, 2) == 1 && CountAmount(t, 3) == 0
    ensures Classify(t).value == HighCard <==> CountAmount(t, 1) == 5
  {
    TotalAtLeast(t);
    var t1 := t[1..];
    Unfold(t, 1); Unfold(t, 2); Unfold(t, 3); Unfold(t, 4); Unfold(t, 5);
    if |t| == 1 {
      assert t1 == [];
    } else {
      var t2 := t1[1..];
      assert t1[0] == t[1];
      Unfold(t1, 1); Unfold(t1, 2); Unfold(t1, 3); Unfold(t1, 4); Unfold(t1, 5);
      if |t| == 2 {
        assert t2 == [];
      } else {
        var t3 := t2[1..];
        assert t2[0] == t[2];
        Unfold(t2, 1); Unfold(t2, 2); Unfold(t2, 3); Unfold(t2, 4); Unfold(t2, 5);
        if |t| == 3 {
          assert t3 == [];
        } else {
          var t4 := t3[1..];
          assert t3[0] == t[3];
          Unfold(t3, 1); Unfold(t3, 2); Unfold(t3, 3); Unfold(t3, 4); Unfold(t3, 5);
          if |t| == 4 {
            assert t4 == [];
          } else {
            assert t4 == [t[4]];
            Unfold(t4, 1); Unfold(t4, 2); Unfold(t4, 3); Unfold(t4, 4); Unfold(t4, 5);
            assert t4[1..] == [];
          }
        }
      }
    }
  }

  /** The cards whose amount is `k`. */
  function KeysWith(t: Tally, k: nat): set<Card>
  {
    if t == [] then {} else (if t[0].amount == k then {t[0].card} else {}) + KeysWith(t[1..], k)
  }

  /** In an ordered map the cards with amount `k` are as many as the entries
      with amount `k`. */
  lemma {:induction false} KeysWithCount(t: Tally, k: nat)
    requires Ordered(t)
    ensures |KeysWith(t, k)| == CountAmount(t, k)
    ensures forall c :: c in KeysWith(t, k) <==> Has(t, c) && AmountOf(t, c) == k
  {
    if t != [] {
      var rest := t[1..];
      assert Ordered(rest) by {
        assert forall j :: 0 <= j < |t| - 1 ==> rest[j] == t[j + 1];
      }
      KeysWithCount(rest, k);
      KeysAbove(t, t[0].card);
      forall c | c != t[0].card ensures AmountOf(t, c) == AmountOf(rest, c) {
      }
    }
  }

  /** The number of different cards that occur exactly `k` times in a hand. */
  function Kinds(cards: seq<Card>, k: nat): nat
  {
    |set c | c in cards && multiset(cards)[c] == k|
  }

  /** The map of a hand has as many entries with amount `k` as the hand has
      cards occurring `k` times. */
  lemma KindsCount(cards: seq<Card>, k: nat)
    ensures CountAmount(TallyOf(cards), k) == Kinds(cards, k)
  {
    TallyFacts(cards);
    TallyCounts(cards);
    KeysWithCount(TallyOf(cards), k);
    assert KeysWith(TallyOf(cards), k) == set c | c in cards && multiset(cards)[c] == k;
  }

  /** What each type means for a hand of five cards without jokers, by how
      often its cards repeat. */
  lemma HandTypeMeaning(cards: seq<Card>)
    requires |cards| == 5
    ensures HandTypeOf(cards, false).Ok?
    ensures HandTypeOf(cards, false).value == FiveOfAKind <==> Kinds(cards, 5) == 1
    ensures HandTypeOf(cards, false).value == FourOfAKind <==> Kinds(cards, 4) == 1
    ensures HandTypeOf(cards, false).value == FullHouse <==> Kinds(cards, 3) == 1 && Kinds(cards, 2) == 1
    ensures HandTypeOf(cards, false).value == ThreeOfAKind <==> Kinds(cards, 3) == 1 && Kinds(cards, 2) == 0
    ensures HandTypeOf(cards, false).value == TwoPair <==> Kinds(cards, 2) == 2
    ensures HandTypeOf(cards, false).value == OnePair <==> Kinds(cards, 2) == 1 && Kinds(cards, 3) == 0
    ensures HandTypeOf(cards, false).value == HighCard <==> Kinds(cards, 1) == 5
  {
    TallyFacts(cards);
    TypeByAmounts(TallyOf(cards));
    KindsCount(cards, 1);
    KindsCount(cards, 2);
    KindsCount(cards, 3);
    KindsCount(cards, 4);
    KindsCount(cards, 5);
  }

  /** With positive amounts, the keys are the cards with a non-zero amount. */
  lemma HasAmount(t: Tally, c: Card)
    requires Positive(t)
    ensures Has(t, c) <==> AmountOf(t, c) > 0
  {
    if Has(t, c) {
      var i := HasSome(t, c);
    } else {
      AmountZero(t, c);
    }
  }

  /** Two ordered, positive maps with the same amount for every card are the
      same map. */
  lemma {:induction false} TallyExt(t: Tally, u: Tally)
    requires Ordered(t) && Positive(t) && Ordered(u) && Positive(u)
    requires forall d :: AmountOf(t, d) == AmountOf(u, d)
    ensures t == u
  {
    if t != [] {
      HasAmount(u, t[0].card);
    }
    if u != [] {
      HasAmount(t, u[0].card);
    }
    if t != [] && u != [] {
      var c := t[0].card;
      KeysAbove(u, c);
      KeysAbove(t, u[0].card);
      StrengthOrder(c, u[0].card, false);
      OrderedTail(t);
      OrderedTail(u);
      KeysAbove(t, c);
      KeysAbove(u, c);
      AmountZero(t[1..], c);
      AmountZero(u[1..], c);
      assert c == u[0].card;
      forall d ensures AmountOf(t[1..], d) == AmountOf(u[1..], d) {
        assert d != c ==> AmountOf(t, d) == AmountOf(t[1..], d) && AmountOf(u, d) == AmountOf(u[1..], d);
      }
      TallyExt(t[1..], u[1..]);
    }
  }

  /** The hand with every J replaced by `c`. */
  function WithJokersAs(cards: seq<Card>, c: Card): (r: seq<Card>)
    ensures |r| == |cards|
  {
    if cards == [] then []
    else WithJokersAs(cards[..|cards| - 1], c) + [if cards[|cards| - 1] == J then c else cards[|cards| - 1]]
  }

  /** Replacing the jokers by `c` moves their multiplicity to `c`. */
  lemma {:induction false} WithJokersAsCounts(cards: seq<Card>, c: Card)
    requires c != J
    ensures forall d :: (multiset(WithJokersAs(cards, c))[d] ==
      if d == J then 0 else if d == c then multiset(cards)[c] + multiset(cards)[J] else multiset(cards)[d])
  {
    if cards != [] {
      var front := cards[..|cards| - 1];
      WithJokersAsCounts(front, c);
      assert cards == front + [cards[|cards| - 1]];
    }
  }

  /** Part two's rule read as a substitution: when the hand holds a J and some
      other card, its type is that of the same hand with every J turned into
      the target card and no jokers. */
  lemma JokersAsTarget(cards: seq<Card>)
    requires J in cards && exists i :: 0 <= i < |cards| && cards[i] != J
    ensures |TallyOf(cards)| != 1 && Has(TallyOf(cards), J)
    ensures HandTypeOf(cards, true) == HandTypeOf(WithJokersAs(cards, JokerTarget(TallyOf(cards))), false)
  {
    var t := TallyOf(cards);
    TallyFacts(cards);
    TallyCounts(cards);
    var i :| 0 <= i < |cards| && cards[i] != J;
    if |t| == 1 {
      SingleKey(t, J);
      SingleKey(t, cards[i]);
    }
    JokerFacts(t);
    JokerTargetMax(t);
    var b := JokerTarget(t);
    var other := WithJokersAs(cards, b);
    TallyFacts(other);
    TallyCounts(other);
    WithJokersAsCounts(cards, b);
    TallyExt(JokerTally(t, true), TallyOf(other));
  }

  // ---------------------------------------------------------------------------
  // Hands and their order

  datatype Ordering = Less | Equal | Greater

  /** `Ord::cmp` on numbers. */
  function Order(x: nat, y: nat): (o: Ordering)
    ensures o == Less <==> x < y
    ensures o == Greater <==> x > y
  {
    if x < y then Less else if x > y then Greater else Equal
  }

  function Flip(o: Option<Ordering>): Option<Ordering>
  {
    match o
    case None => None
    case Some(Less) => Some(Greater)
    case Some(Greater) => Some(Less)
    case Some(Equal) => Some(Equal)
  }

  /** A hand as `Hand::new` builds it: its cards, its bid, the type of its
      cards under its rules, and whether J is a joker. */
  datatype Hand = Hand(cards: seq<Card>, bid: nat, handType: HandType, joker: bool)

  /** `Hand::new`: panics when the type does. */
  function NewHand(cards: seq<Card>, bid: nat, joker: bool): (r: Result<Hand>)
    ensures r.Ok? ==> WellFormed(r.value) && r.value.cards == cards && r.value.bid == bid && r.value.joker == joker
    ensures r.Panic? <==> HandTypeOf(cards, joker).Panic?
  {
    match HandTypeOf(cards, joker)
    case Panic => Panic
    case Ok(handType) => Ok(Hand(cards, bid, handType, joker))
  }

  /** The stored type is the type of the cards. */
  predicate WellFormed(h: Hand)
  {
    HandTypeOf(h.cards, h.joker) == Ok(h.handType)
  }

  /** The `zip(...).find_map(...)` of `partial_cmp`: the order of the first
      pair of cards of different strength; none when the shorter hand runs
      out first. */
  function FirstDifference(xs: seq<Card>, ys: seq<Card>, joker: bool): Option<Ordering>
  {
    if xs == [] || ys == [] then None
    else if Strength(xs[0], joker) == Strength(ys[0], joker) then FirstDifference(xs[1..], ys[1..], joker)
    else Some(Order(Strength(xs[0], joker), Strength(ys[0], joker)))
  }

  /** `Hand::partial_cmp`: by type first, then card by card with the
      strengths of the left hand's rules. */
  function Compare(a: Hand, b: Hand): (r: Option<Ordering>)
    ensures r != Some(Equal)
    ensures r == None ==> Rank(a.handType) == Rank(b.handType)
  {
    FirstDifferenceLex(a.cards, b.cards, a.joker);
    if Rank(a.handType) != Rank(b.handType) then Some(Order(Rank(a.handType), Rank(b.handType)))
    else FirstDifference(a.cards, b.cards, a.joker)
  }

  /** The hands first differ at position `k`. */
  predicate DiffersAt(xs: seq<Card>, ys: seq<Card>, k: nat)
  {
    k < |xs| && k < |ys| && xs[..k] == ys[..k] && xs[k] != ys[k]
  }

  /** One hand is a prefix of the other. */
  predicate Prefixes(xs: seq<Card>, ys: seq<Card>)
  {
    forall i :: 0 <= i < |xs| && i < |ys| ==> xs[i] == ys[i]
  }

  lemma DiffersAtTail(xs: seq<Card>, ys: seq<Card>, k: nat)
    requires xs != [] && ys != [] && xs[0] == ys[0]
    ensures DiffersAt(xs, ys, k + 1) <==> DiffersAt(xs[1..], ys[1..], k)
  {
    if k + 1 < |xs| && k + 1 < |ys| {
      assert xs[..k + 1] == [xs[0]] + xs[1..][..k];
      assert ys[..k + 1] == [ys[0]] + ys[1..][..k];
    }
  }

  lemma DiffersAtHead(xs: seq<Card>, ys: seq<Card>)
    ensures forall k: nat :: DiffersAt(xs, ys, k) && k > 0 ==> xs[0] == ys[0]
  {
    forall k: nat | DiffersAt(xs, ys, k) && k > 0 ensures xs[0] == ys[0] {
      assert xs[..k][0] == ys[..k][0];
    }
  }

  /** The card-by-card comparison is lexicographic: it is never `Equal`; it
      is none exactly when one hand is a prefix of the other, and otherwise
      it compares the strengths at the first position where the hands
      differ. */
  lemma {:induction false} FirstDifferenceLex(xs: seq<Card>, ys: seq<Card>, joker: bool)
    ensures FirstDifference(xs, ys, joker) != Some(Equal)
    ensures FirstDifference(xs, ys, joker) == None <==> Prefixes(xs, ys)
    ensures FirstDifference(xs, ys, joker).Some? ==> exists k: nat :: DiffersAt(xs, ys, k)
    ensures forall k: nat :: DiffersAt(xs, ys, k) ==>
      FirstDifference(xs, ys, joker) == Some(Order(Strength(xs[k], joker), Strength(ys[k], joker)))
  {
    if xs != [] && ys != [] {
      StrengthOrder(xs[0], ys[0], joker);
      if xs[0] == ys[0] {
        FirstDifferenceLex(xs[1..], ys[1..], joker);
        forall k: nat | DiffersAt(xs, ys, k)
          ensures FirstDifference(xs, ys, joker) == Some(Order(Strength(xs[k], joker), Strength(ys[k], joker)))
        {
          assert k != 0;
          DiffersAtTail(xs, ys, k - 1);
        }
        if FirstDifference(xs, ys, joker).Some? {
          var k: nat :| DiffersAt(xs[1..], ys[1..], k);
          DiffersAtTail(xs, ys, k);
        }
        assert Prefixes(xs, ys) <==> Prefixes(xs[1..], ys[1..]) by {
          assert forall i :: 1 <= i < |xs| && i < |ys| ==> xs[1..][i - 1] == xs[i] && ys[1..][i - 1] == ys[i];
        }
      } else {
        assert DiffersAt(xs, ys, 0);
        DiffersAtHead(xs, ys);
      }
    }
  }

  /** Swapping the hands flips the card-by-card comparison. */
  lemma {:induction false} FirstDifferenceFlip(xs: seq<Card>, ys: seq<Card>, joker: bool)
    ensures FirstDifference(ys, xs, joker) == Flip(FirstDifference(xs, ys, joker))
  {
    if xs != [] && ys != [] && Strength(xs[0], joker) == Strength(ys[0], joker) {
      FirstDifferenceFlip(xs[1..], ys[1..], joker);
    }
  }

  /** The card-by-card comparison is transitive. */
  lemma {:induction false} FirstDifferenceTransitive(xs: seq<Card>, ys: seq<Card>, zs: seq<Card>, joker: bool)
    requires FirstDifference(xs, ys, joker) == Some(Less) && FirstDifference(ys, zs, joker) == Some(Less)
    ensures FirstDifference(xs, zs, joker) == Some(Less)
  {
    if Strength(xs[0], joker) == Strength(ys[0], joker) && Strength(ys[0], joker) == Strength(zs[0], joker) {
      FirstDifferenceTransitive(xs[1..], ys[1..], zs[1..], joker);
    }
  }

  /** Types of equal rank are the same type. */
  lemma RankInjective(x: HandType, y: HandType)
    ensures Rank(x) == Rank(y) ==> x == y
  {
  }

  /** For hands under the same rules the comparison is never `Equal`, and
      swapping the hands flips it. */
  lemma CompareFlip(a: Hand, b: Hand)
    requires a.joker == b.joker
    ensures Compare(a, b) != Some(Equal)
    ensures Compare(b, a) == Flip(Compare(a, b))
  {
    FirstDifferenceLex(a.cards, b.cards, a.joker);
    FirstDifferenceFlip(a.cards, b.cards, a.joker);
  }

  /** For hands under the same rules, `Less` is transitive. */
  lemma CompareTransitive(a: Hand, b: Hand, c: Hand)
    requires a.joker == b.joker == c.joker
    requires Compare(a, b) == Some(Less) && Compare(b, c) == Some(Less)
    ensures Compare(a, c) == Some(Less)
  {
    if Rank(a.handType) == Rank(b.handType) == Rank(c.handType) {
      FirstDifferenceTransitive(a.cards, b.cards, c.cards, a.joker);
    }
  }

  /** Two hands under the same rules cannot be ordered exactly when they
      have the same type and one hand's cards begin the other's; for
      well-formed hands of the same length, exactly when their cards are the
      same. In particular a hand cannot be ordered against itself. */
  lemma CompareNone(a: Hand, b: Hand)
    requires a.joker == b.joker
    ensures Compare(a, b) == None <==> a.handType == b.handType && Prefixes(a.cards, b.cards)
    ensures WellFormed(a) && WellFormed(b) && |a.cards| == |b.cards| ==> (Compare(a, b) == None <==> a.cards == b.cards)
    ensures Compare(a, a) == None
  {
    RankInjective(a.handType, b.handType);
    FirstDifferenceLex(a.cards, b.cards, a.joker);
    FirstDifferenceLex(a.cards, a.cards, a.joker);
    if WellFormed(a) && WellFormed(b) && |a.cards| == |b.cards| && Prefixes(a.cards, b.cards) {
      assert a.cards == b.cards;
    }
  }

  // ---------------------------------------------------------------------------
  // Sorting and winnings

  /** Every hand follows the same rules. */
  predicate SameRules(hs: seq<Hand>, joker: bool)
  {
    forall h :: h in hs ==> h.joker == joker
  }

  /** Each hand is below every later one. */
  predicate Sorted(s: seq<Hand>)
  {
    forall i, j :: 0 <= i < j < |s| ==> Compare(s[i], s[j]) == Some(Less)
  }

  /** Any two hands at different places can be ordered: a pair that cannot
      is one hand, and it occurs once. */
  predicate Comparable(hs: seq<Hand>)
  {
    forall x, y :: x in hs && y in hs && Compare(x, y) == None ==> x == y && multiset(hs)[x] == 1
  }

  /** One step of the library's insertion sort (`insert_tail`): the new hand
      moves left past every hand it is below; the comparator's `unwrap`
      panics on a pair that cannot be ordered. */
  function Insert(s: seq<Hand>, h: Hand): Result<seq<Hand>>
  {
    if s == [] then Ok([h])
    else
      var last := s[|s| - 1];
      match Compare(h, last)
      case None => Panic
      case Some(o) =>
        if o == Less then
          match Insert(s[..|s| - 1], h)
          case Panic => Panic
          case Ok(r) => Ok(r + [last])
        else Ok(s + [h])
  }

  /** `hands.sort_by(|a, b| a.partial_cmp(b).unwrap())` on up to twenty
      hands, which the library sorts by insertion: each hand in turn is
      inserted into the sorted prefix before it. */
  function SortHands(hs: seq<Hand>): Result<seq<Hand>>
  {
    if hs == [] then Ok([])
    else
      match SortHands(hs[..|hs| - 1])
      case Panic => Panic
      case Ok(s) => Insert(s, hs[|hs| - 1])
  }

  lemma SortedFront(front: seq<Hand>, last: Hand)
    requires Sorted(front + [last])
    ensures Sorted(front)
    ensures forall x :: x in front ==> Compare(x, last) == Some(Less)
  {
    var s := front + [last];
    assert forall i :: 0 <= i < |front| ==> s[i] == front[i];
    assert s[|front|] == last;
  }

  /** A hand below the last one, inserted into the rest, goes before it. */
  lemma InsertBelowLast(front: seq<Hand>, last: Hand, h: Hand, r: seq<Hand>)
    requires Sorted(front + [last]) && Compare(h, last) == Some(Less)
    requires Sorted(r) && multiset(r) == multiset(front) + multiset{h}
    ensures Sorted(r + [last]) && multiset(r + [last]) == multiset(front + [last]) + multiset{h}
  {
    SortedFront(front, last);
    forall y | y in r ensures Compare(y, last) == Some(Less) {
      assert y in multiset(r);
    }
    var t := r + [last];
    assert forall i :: 0 <= i < |r| ==> t[i] == r[i] && t[i] in r;
  }

  /** A hand above the last one goes after it, and is above all of them. */
  lemma InsertAfterLast(s: seq<Hand>, h: Hand, joker: bool)
    requires SameRules(s, joker) && h.joker == joker && Sorted(s) && s != []
    requires Compare(h, s[|s| - 1]) == Some(Greater)
    ensures Sorted(s + [h]) && forall x :: x in s ==> Compare(h, x).Some?
  {
    var last := s[|s| - 1];
    SortedFront(s[..|s| - 1], last);
    assert s == s[..|s| - 1] + [last];
    forall x | x in s ensures Compare(x, h) == Some(Less) && Compare(h, x).Some? {
      CompareFlip(x, h);
      CompareFlip(h, last);
      if x != last {
        CompareTransitive(x, last, h);
      }
    }
    var t := s + [h];
    assert forall i :: 0 <= i < |s| ==> t[i] == s[i] && t[i] in s;
  }

  /** Inserting into a sorted sequence succeeds exactly when the new hand
      can be ordered against every hand there, and then gives a sorted
      sequence holding one more hand. */
  lemma {:induction false} InsertFacts(s: seq<Hand>, h: Hand, joker: bool)
    requires SameRules(s, joker) && h.joker == joker && Sorted(s)
    ensures Insert(s, h).Ok? <==> forall x :: x in s ==> Compare(h, x).Some?
    ensures Insert(s, h).Ok? ==> Sorted(Insert(s, h).value) && multiset(Insert(s, h).value) == multiset(s) + multiset{h}
  {
    if s != [] {
      var last, front := s[|s| - 1], s[..|s| - 1];
      assert s == front + [last];
      assert forall x :: x in s <==> x in front || x == last;
      CompareFlip(h, last);
      match Compare(h, last)
      case None =>
        assert Insert(s, h) == Panic;
      case Some(o) =>
        if o == Less {
          SortedFront(front, last);
          assert SameRules(front, joker);
          InsertFacts(front, h, joker);
          if Insert(front, h).Ok? {
            assert Insert(s, h) == Ok(Insert(front, h).value + [last]);
            InsertBelowLast(front, last, h, Insert(front, h).value);
          } else {
            assert Insert(s, h) == Panic;
          }
        } else {
          assert Insert(s, h) == Ok(s + [h]);
          InsertAfterLast(s, h, joker);
        }
    }
  }

  /** Adding a hand keeps every pair orderable exactly when the hands before
      were and the new hand can be ordered against each of them. */
  lemma ComparableSnoc(front: seq<Hand>, h: Hand, joker: bool)
    requires SameRules(front, joker) && h.joker == joker
    ensures Comparable(front + [h]) <==> Comparable(front) && forall x :: x in front ==> Compare(h, x).Some?
  {
    var hs := front + [h];
    assert multiset(hs) == multiset(front) + multiset{h};
    CompareNone(h, h);
    forall x | x in front ensures Compare(h, x).Some? <==> Compare(x, h).Some? {
      CompareFlip(x, h);
    }
  }

  /** The sort succeeds exactly when every pair of hands can be ordered, and
      then it returns the same hands, sorted. */
  lemma {:induction false} SortFacts(hs: seq<Hand>, joker: bool)
    requires SameRules(hs, joker)
    ensures SortHands(hs).Ok? <==> Comparable(hs)
    ensures SortHands(hs).Ok? ==> Sorted(SortHands(hs).value) && multiset(SortHands(hs).value) == multiset(hs)
  {
    if hs != [] {
      var front, last := hs[..|hs| - 1], hs[|hs| - 1];
      assert hs == front + [last];
      SortFacts(front, joker);
      ComparableSnoc(front, last, joker);
      if SortHands(front).Ok? {
        var s := SortHands(front).value;
        assert forall x :: x in s <==> x in front by {
          assert forall x :: x in s <==> x in multiset(s);
        }
        InsertFacts(s, last, joker);
      }
    }
  }

  /** The last hand of a sorted sequence is above every other hand in it. */
  lemma LastIsTop(s: seq<Hand>, x: Hand)
    requires Sorted(s) && x in multiset(s)
    ensures x == s[|s| - 1] || Compare(x, s[|s| - 1]) == Some(Less)
  {
    var i :| 0 <= i < |s| && s[i] == x;
  }

  /** Two hands each at most the other are the same hand. */
  lemma TopsAgree(a: Hand, b: Hand)
    requires a.joker == b.joker
    requires a == b || Compare(a, b) == Some(Less)
    requires b == a || Compare(b, a) == Some(Less)
    ensures a == b
  {
    CompareFlip(a, b);
  }

  /** Two sorted orders of the same hands end with the same hand, and what
      comes before it is again two sorted orders of the same hands. */
  lemma SortedLast(s: seq<Hand>, t: seq<Hand>, joker: bool)
    requires SameRules(s, joker) && Sorted(s) && Sorted(t) && multiset(s) == multiset(t) && s != []
    ensures |t| == |s| && s[|s| - 1] == t[|t| - 1]
    ensures SameRules(s[..|s| - 1], joker) && Sorted(s[..|s| - 1]) && Sorted(t[..|t| - 1])
    ensures multiset(s[..|s| - 1]) == multiset(t[..|t| - 1])
  {
    assert |t| == |s| by {
      assert |t| == |multiset(t)| == |s|;
    }
    var a, b := s[|s| - 1], t[|t| - 1];
    assert a in multiset(t) && b in multiset(s);
    LastIsTop(s, b);
    LastIsTop(t, a);
    assert b in s;
    TopsAgree(a, b);
    DropLast(s, joker);
    DropLast(t, joker);
  }

  /** Dropping the last hand of a sorted sequence leaves a sorted sequence
      of the other hands. */
  lemma DropLast(s: seq<Hand>, joker: bool)
    requires Sorted(s) && s != []
    ensures Sorted(s[..|s| - 1])
    ensures multiset(s[..|s| - 1]) == multiset(s) - multiset{s[|s| - 1]}
    ensures SameRules(s, joker) ==> SameRules(s[..|s| - 1], joker)
  {
    var front := s[..|s| - 1];
    assert forall i :: 0 <= i < |front| ==> front[i] == s[i];
    DropLastCount(s);
  }

  lemma DropLastCount(s: seq<Hand>)
    requires s != []
    ensures multiset(s[..|s| - 1]) == multiset(s) - multiset{s[|s| - 1]}
  {
    assert s == s[..|s| - 1] + [s[|s| - 1]];
  }

  /** Hands under the same rules have only one sorted order: any other sort
      that succeeds returns the same sequence. */
  lemma {:induction false} SortedUnique(s: seq<Hand>, t: seq<Hand>, joker: bool)
    requires SameRules(s, joker) && Sorted(s) && Sorted(t) && multiset(s) == multiset(t)
    ensures s == t
  {
    if s != [] {
      SortedLast(s, t, joker);
      SortedUnique(s[..|s| - 1], t[..|t| - 1], joker);
      assert s == s[..|s| - 1] + [s[|s| - 1]];
      assert t == t[..|t| - 1] + [t[|t| - 1]];
    } else {
      assert |t| == |multiset(t)| == 0;
    }
  }

  /** `hands.iter().enumerate().map(|(rank, hand)| hand.bid * (rank + 1)).sum()`. */
  function Winnings(s: seq<Hand>): nat
  {
    if s == [] then 0 else Winnings(s[..|s| - 1]) + s[|s| - 1].bid * |s|
  }

  /** The number of hands in `all` that are below `h`. */
  function Below(h: Hand, all: seq<Hand>): nat
  {
    if all == [] then 0
    else Below(h, all[..|all| - 1]) + (if Compare(all[|all| - 1], h) == Some(Less) then 1 else 0)
  }

  /** What a hand wins when ranked among `all`: its bid times its rank, one
      more than the number of hands below it. */
  function Score(h: Hand, all: seq<Hand>): nat
  {
    h.bid * (Below(h, all) + 1)
  }

  /** The puzzle's own description of the winnings, independent of any sort:
      the scores of the hands of `xs` among `all`, added up. */
  function RankedSum(xs: seq<Hand>, all: seq<Hand>): nat
  {
    if xs == [] then 0 else RankedSum(xs[..|xs| - 1], all) + Score(xs[|xs| - 1], all)
  }

  lemma {:induction false} BelowAppend(h: Hand, a: seq<Hand>, b: seq<Hand>)
    ensures Below(h, a + b) == Below(h, a) + Below(h, b)
  {
    if b != [] {
      assert (a + b)[..|a + b| - 1] == a + b[..|b| - 1];
      BelowAppend(h, a, b[..|b| - 1]);
    } else {
      assert a + b == a;
    }
  }

  lemma {:induction false} RankedSumAppend(a: seq<Hand>, b: seq<Hand>, all: seq<Hand>)
    ensures RankedSum(a + b, all) == RankedSum(a, all) + RankedSum(b, all)
  {
    if b != [] {
      assert (a + b)[..|a + b| - 1] == a + b[..|b| - 1];
      RankedSumAppend(a, b[..|b| - 1], all);
    } else {
      assert a + b == a;
    }
  }

  /** Where `x` sits in `ys`, so that `ys` splits around it. */
  lemma Split(ys: seq<Hand>, x: Hand) returns (j: nat)
    requires x in multiset(ys)
    ensures j < |ys| && ys[j] == x && ys == ys[..j] + [x] + ys[j + 1..]
    ensures multiset(ys[..j] + ys[j + 1..]) == multiset(ys) - multiset{x}
  {
    j :| 0 <= j < |ys| && ys[j] == x;
    assert ys == ys[..j] + [x] + ys[j + 1..];
    assert multiset(ys) == multiset(ys[..j]) + multiset{x} + multiset(ys[j + 1..]);
  }

  /** The count of hands below depends only on which hands there are. */
  lemma {:induction false} BelowPerm(h: Hand, xs: seq<Hand>, ys: seq<Hand>)
    requires multiset(xs) == multiset(ys)
    ensures Below(h, xs) == Below(h, ys)
  {
    if xs != [] {
      var x, front := xs[|xs| - 1], xs[..|xs| - 1];
      assert xs == front + [x];
      var j := Split(ys, x);
      var rest := ys[..j] + ys[j + 1..];
      BelowPerm(h, front, rest);
      BelowAppend(h, ys[..j] + [x], ys[j + 1..]);
      BelowAppend(h, ys[..j], [x]);
      BelowAppend(h, ys[..j], ys[j + 1..]);
      assert [x][..0] == [];
    } else {
      assert |ys| == |multiset(ys)| == 0;
    }
  }

  /** The ranked sum depends only on which hands are summed. */
  lemma {:induction false} RankedSumPerm(xs: seq<Hand>, ys: seq<Hand>, all: seq<Hand>)
    requires multiset(xs) == multiset(ys)
    ensures RankedSum(xs, all) == RankedSum(ys, all)
  {
    if xs != [] {
      var x, front := xs[|xs| - 1], xs[..|xs| - 1];
      assert xs == front + [x];
      var j := Split(ys, x);
      var rest := ys[..j] + ys[j + 1..];
      RankedSumPerm(front, rest, all);
      RankedSumAppend(ys[..j] + [x], ys[j + 1..], all);
      RankedSumAppend(ys[..j], [x], all);
      RankedSumAppend(ys[..j], ys[j + 1..], all);
      assert [x][..0] == [];
    } else {
      assert |ys| == |multiset(ys)| == 0;
    }
  }

  /** The ranks depend only on which hands are ranked against. */
  lemma {:induction false} RankedSumAll(xs: seq<Hand>, all: seq<Hand>, all': seq<Hand>)
    requires multiset(all) == multiset(all')
    ensures RankedSum(xs, all) == RankedSum(xs, all')
  {
    if xs != [] {
      RankedSumAll(xs[..|xs| - 1], all, all');
      BelowPerm(xs[|xs| - 1], all, all');
    }
  }

  /** When exactly the first `k` hands are below `h`, `h` has `k` hands
      below it. */
  lemma {:induction false} BelowCount(h: Hand, s: seq<Hand>, k: nat)
    requires k <= |s|
    requires forall j :: 0 <= j < k ==> Compare(s[j], h) == Some(Less)
    requires forall j :: k <= j < |s| ==> Compare(s[j], h) != Some(Less)
    ensures Below(h, s) == k
  {
    if s != [] {
      var front := s[..|s| - 1];
      assert forall j :: 0 <= j < |front| ==> front[j] == s[j];
      if |s| == k {
        BelowCount(h, front, k - 1);
      } else {
        BelowCount(h, front, k);
      }
    }
  }

  /** In a sorted sequence the hand at `i` has exactly `i` hands below it. */
  lemma BelowSorted(s: seq<Hand>, i: nat, joker: bool)
    requires SameRules(s, joker) && Sorted(s) && i < |s|
    ensures Below(s[i], s) == i
  {
    forall j | i <= j < |s| ensures Compare(s[j], s[i]) != Some(Less) {
      CompareFlip(s[i], s[j]);
      CompareNone(s[i], s[i]);
    }
    BelowCount(s[i], s, i);
  }

  /** The winnings of a sorted sequence are its ranked sum: the position in
      the sorted order is the rank. */
  lemma {:induction false} WinningsRanked(s: seq<Hand>, k: nat, joker: bool)
    requires SameRules(s, joker) && Sorted(s) && k <= |s|
    ensures Winnings(s[..k]) == RankedSum(s[..k], s)
  {
    if k > 0 {
      assert s[..k][..k - 1] == s[..k - 1];
      WinningsRanked(s, k - 1, joker);
      BelowSorted(s, k - 1, joker);
    }
  }

  /** `solve_puzzle` after parsing: sort, then add up the winnings. */
  function SolvePuzzle(hs: seq<Hand>): Result<nat>
  {
    match SortHands(hs)
    case Panic => Panic
    case Ok(s) => Ok(Winnings(s))
  }

  /** The answer does not depend on the sort: it exists exactly when every
      pair of hands can be ordered, and it is then the ranked sum of the
      hands. */
  lemma SolvePuzzleRanked(hs: seq<Hand>, joker: bool)
    requires SameRules(hs, joker)
    ensures SolvePuzzle(hs).Ok? <==> Comparable(hs)
    ensures SolvePuzzle(hs).Ok? ==> SolvePuzzle(hs).value == RankedSum(hs, hs)
  {
    SortFacts(hs, joker);
    if SortHands(hs).Ok? {
      var s := SortHands(hs).value;
      assert SameRules(s, joker) by {
        assert forall h :: h in s ==> h in multiset(hs);
      }
      WinningsRanked(s, |s|, joker);
      assert s[..|s|] == s;
      RankedSumPerm(s, hs, s);
      RankedSumAll(hs, s, hs);
    }
  }

  // ---------------------------------------------------------------------------
  // The puzzle

  /** One input line, `cards bid`, as the parser splits it. */
  datatype Line = Line(cards: string, bid: nat)

  /** `parse_hand`: the cards converted one by one, then `Hand::new`. */
  function HandOf(line: Line, joker: bool): Result<Hand>
  {
    match CardsOf(line.cards)
    case Panic => Panic
    case Ok(cards) => NewHand(cards, line.bid, joker)
  }

  /** `parse_hands`: every line in order; any panic ends the run. */
  function ParseHands(lines: seq<Line>, joker: bool): Result<seq<Hand>>
  {
    if lines == [] then Ok([])
    else
      match ParseHands(lines[..|lines| - 1], joker)
      case Panic => Panic
      case Ok(hs) =>
        match HandOf(lines[|lines| - 1], joker)
        case Panic => Panic
        case Ok(h) => Ok(hs + [h])
  }

  /** Parsing succeeds exactly when every line gives a hand. */
  lemma {:induction false} ParseHandsOk(lines: seq<Line>, joker: bool)
    ensures ParseHands(lines, joker).Ok? <==> forall i :: 0 <= i < |lines| ==> HandOf(lines[i], joker).Ok?
  {
    if lines != [] {
      var front := lines[..|lines| - 1];
      ParseHandsOk(front, joker);
      assert ParseHands(lines, joker).Ok? <==> ParseHands(front, joker).Ok? && HandOf(lines[|lines| - 1], joker).Ok?;
      assert forall i :: 0 <= i < |front| ==> front[i] == lines[i];
    }
  }

  /** A successful parse gives the lines' hands in order, all under the
      same rules. */
  lemma {:induction false} ParseHandsValue(lines: seq<Line>, joker: bool)
    requires ParseHands(lines, joker).Ok?
    ensures |ParseHands(lines, joker).value| == |lines|
    ensures forall i :: 0 <= i < |lines| ==> HandOf(lines[i], joker).Ok? && ParseHands(lines, joker).value[i] == HandOf(lines[i], joker).value
    ensures SameRules(ParseHands(lines, joker).value, joker)
  {
    if lines != [] {
      var front := lines[..|lines| - 1];
      ParseHandsValue(front, joker);
      var hs := ParseHands(front, joker).value;
      assert HandOf(lines[|lines| - 1], joker).Ok?;
      var h := HandOf(lines[|lines| - 1], joker).value;
      assert ParseHands(lines, joker).value == hs + [h];
      forall i | 0 <= i < |lines|
        ensures HandOf(lines[i], joker).Ok? && (hs + [h])[i] == HandOf(lines[i], joker).value
      {
        if i < |front| {
          assert front[i] == lines[i];
        }
      }
      assert h.joker == joker;
    }
  }

  /** The converse: lines that each give their hand parse into those
      hands. */
  lemma {:induction false} ParseHandsEach(lines: seq<Line>, hs: seq<Hand>, joker: bool)
    requires |lines| == |hs|
    requires forall i :: 0 <= i < |lines| ==> HandOf(lines[i], joker) == Ok(hs[i])
    ensures ParseHands(lines, joker) == Ok(hs)
  {
    if lines != [] {
      var n := |lines| - 1;
      var front, first := lines[..n], hs[..n];
      forall i | 0 <= i < n
        ensures HandOf(front[i], joker) == Ok(first[i])
      {
        assert front[i] == lines[i] && first[i] == hs[i];
      }
      ParseHandsEach(front, first, joker);
      ParseHandsSnoc(lines, joker, first, hs[n]);
      assert hs == first + [hs[n]];
    }
  }

  /** One parsing step: the hands of all lines but the last, then the
      last line's hand. */
  lemma ParseHandsSnoc(lines: seq<Line>, joker: bool, first: seq<Hand>, h: Hand)
    requires lines != [] && ParseHands(lines[..|lines| - 1], joker) == Ok(first)
    requires HandOf(lines[|lines| - 1], joker) == Ok(h)
    ensures ParseHands(lines, joker) == Ok(first + [h])
  {
  }

  /** `solve_puzzle`. */
  function Solve(lines: seq<Line>, joker: bool): Result<nat>
  {
    match ParseHands(lines, joker)
    case Panic => Panic
    case Ok(hs) => SolvePuzzle(hs)
  }

  /** `part_one`: the ranked sum of the hands under the plain rules; it
      panics exactly when a line gives no hand or two hands cannot be
      ordered. */
  function PartOne(lines: seq<Line>): (r: Result<nat>)
    ensures r.Ok? <==> ParseHands(lines, false).Ok? && Comparable(ParseHands(lines, false).value)
    ensures r.Ok? ==> r.value == RankedSum(ParseHands(lines, false).value, ParseHands(lines, false).value)
  {
    SolveRanked(lines, false);
    Solve(lines, false)
  }

  /** `part_two`: the same under the joker rules. */
  function PartTwo(lines: seq<Line>): (r: Result<nat>)
    ensures r.Ok? <==> ParseHands(lines, true).Ok? && Comparable(ParseHands(lines, true).value)
    ensures r.Ok? ==> r.value == RankedSum(ParseHands(lines, true).value, ParseHands(lines, true).value)
  {
    SolveRanked(lines, true);
    Solve(lines, true)
  }

  /** The puzzle's answer: when every line gives a hand and every pair of
      hands can be ordered, each hand wins its bid times its rank; otherwise
      the run panics. */
  lemma SolveRanked(lines: seq<Line>, joker: bool)
    ensures Solve(lines, joker).Ok? <==> ParseHands(lines, joker).Ok? && Comparable(ParseHands(lines, joker).value)
    ensures Solve(lines, joker).Ok? ==> Solve(lines, joker).value == RankedSum(ParseHands(lines, joker).value, ParseHands(lines, joker).value)
  {
    if ParseHands(lines, joker).Ok? {
      ParseHandsValue(lines, joker);
      SolvePuzzleRanked(ParseHands(lines, joker).value, joker);
    }
  }
}

/** The worked example of the day-7 puzzle, checked against the model. */
module CamelCardsExample {
  import opened Common
  import opened CamelCards

  /** The example's five hands and bids. */
  function Lines(): seq<Line>
  {
    [Line("32T3K", 765), Line("T55J5", 684), Line("KK677", 28), Line("KTJJT", 220), Line("QQQJA", 483)]
  }

  /** One more card letter in front of converted ones. */
  lemma CardStep(s: string, i: nat, c: Card, rest: seq<Card>)
    requires i < |s| && CardOf(s[i]) == Ok(c) && CardsFrom(s, i + 1) == Ok(rest)
    ensures CardsFrom(s, i) == Ok([c] + rest)
  {
  }

  /** Counting one more card. */
  lemma TallyStep(cards: seq<Card>, c: Card, t: Tally, all: seq<Card>)
    requires TallyOf(cards) == t && all == cards + [c]
    ensures TallyOf(all) == Tick(t, c)
  {
    assert all[..|cards|] == cards;
  }

  /** The example's hands under each rule. */
  function Hands(joker: bool): seq<Hand>
  {
    [
      Hand([Three, Two, T, Three, K], 765, OnePair, joker),
      Hand([T, Five, Five, J, Five], 684, (if joker then FourOfAKind else ThreeOfAKind), joker),
      Hand([K, K, Six, Seven, Seven], 28, TwoPair, joker),
      Hand([K, T, J, J, T], 220, (if joker then FourOfAKind else TwoPair), joker),
      Hand([Q, Q, Q, J, A], 483, (if joker then FourOfAKind else ThreeOfAKind), joker)
    ]
  }

  lemma Cards1()
    ensures CardsOf("32T3K") == Ok([Three, Two, T, Three, K])
  {
    var s := "32T3K";
    CardStep(s, 4, K, []);
    assert [K] + [] == [K];
    CardStep(s, 3, Three, [K]);
    assert [Three] + [K] == [Three, K];
    CardStep(s, 2, T, [Three, K]);
    assert [T] + [Three, K] == [T, Three, K];
    CardStep(s, 1, Two, [T, Three, K]);
    assert [Two] + [T, Three, K] == [Two, T, Three, K];
    CardStep(s, 0, Three, [Two, T, Three, K]);
    assert [Three] + [Two, T, Three, K] == [Three, Two, T, Three, K];
  }

  lemma Tally1()
    ensures TallyOf([Three, Two, T, Three, K]) == [Entry(Two, 1), Entry(Three, 2), Entry(T, 1), Entry(K, 1)]
  {
    assert TallyOf([Three, Two]) == [Entry(Two, 1), Entry(Three, 1)];
    TallyStep([Three, Two], T, [Entry(Two, 1), Entry(Three, 1)], [Three, Two, T]);
    TallyStep([Three, Two, T], Three, [Entry(Two, 1), Entry(Three, 1), Entry(T, 1)], [Three, Two, T, Three]);
    TallyStep([Three, Two, T, Three], K, [Entry(Two, 1), Entry(Three, 2), Entry(T, 1)], [Three, Two, T, Three, K]);
  }

  lemma Type1(joker: bool)
    ensures HandTypeOf([Three, Two, T, Three, K], joker) == Ok(OnePair)
  {
    var t := [Entry(Two, 1), Entry(Three, 2), Entry(T, 1), Entry(K, 1)];
    Tally1();
    assert !Has(t, J);
    assert JokerTally(t, joker) == t;
  }

  lemma Cards2()
    ensures CardsOf("T55J5") == Ok([T, Five, Five, J, Five])
  {
    var s := "T55J5";
    CardStep(s, 4, Five, []);
    assert [Five] + [] == [Five];
    CardStep(s, 3, J, [Five]);
    assert [J] + [Five] == [J, Five];
    CardStep(s, 2, Five, [J, Five]);
    assert [Five] + [J, Five] == [Five, J, Five];
    CardStep(s, 1, Five, [Five, J, Five]);
    assert [Five] + [Five, J, Five] == [Five, Five, J, Five];
    CardStep(s, 0, T, [Five, Five, J, Five]);
    assert [T] + [Five, Five, J, Five] == [T, Five, Five, J, Five];
  }

  lemma Tally2()
    ensures TallyOf([T, Five, Five, J, Five]) == [Entry(Five, 3), Entry(T, 1), Entry(J, 1)]
  {
    assert TallyOf([T, Five]) == [Entry(Five, 1), Entry(T, 1)];
    TallyStep([T, Five], Five, [Entry(Five, 1), Entry(T, 1)], [T, Five, Five]);
    TallyStep([T, Five, Five], J, [Entry(Five, 2), Entry(T, 1)], [T, Five, Five, J]);
    TallyStep([T, Five, Five, J], Five, [Entry(Five, 2), Entry(T, 1), Entry(J, 1)], [T, Five, Five, J, Five]);
  }

  lemma Type2()
    ensures HandTypeOf([T, Five, Five, J, Five], false) == Ok(ThreeOfAKind)
    ensures HandTypeOf([T, Five, Five, J, Five], true) == Ok(FourOfAKind)
  {
    var t := [Entry(Five, 3), Entry(T, 1), Entry(J, 1)];
    Tally2();
    assert Remove(t, J) == [Entry(Five, 3), Entry(T, 1)];
    assert BiggestAt([Entry(Five, 3), Entry(T, 1)]) == 0;
    assert JokerTally(t, true) == [Entry(Five, 4), Entry(T, 1)];
  }

  lemma Cards3()
    ensures CardsOf("KK677") == Ok([K, K, Six, Seven, Seven])
  {
    var s := "KK677";
    CardStep(s, 4, Seven, []);
    assert [Seven] + [] == [Seven];
    CardStep(s, 3, Seven, [Seven]);
    assert [Seven] + [Seven] == [Seven, Seven];
    CardStep(s, 2, Six, [Seven, Seven]);
    assert [Six] + [Seven, Seven] == [Six, Seven, Seven];
    CardStep(s, 1, K, [Six, Seven, Seven]);
    assert [K] + [Six, Seven, Seven] == [K, Six, Seven, Seven];
    CardStep(s, 0, K, [K, Six, Seven, Seven]);
    assert [K] + [K, Six, Seven, Seven] == [K, K, Six, Seven, Seven];
  }

  lemma Tally3()
    ensures TallyOf([K, K, Six, Seven, Seven]) == [Entry(Six, 1), Entry(Seven, 2), Entry(K, 2)]
  {
    assert TallyOf([K, K]) == [Entry(K, 2)];
    TallyStep([K, K], Six, [Entry(K, 2)], [K, K, Six]);
    TallyStep([K, K, Six], Seven, [Entry(Six, 1), Entry(K, 2)], [K, K, Six, Seven]);
    TallyStep([K, K, Six, Seven], Seven, [Entry(Six, 1), Entry(Seven, 1), Entry(K, 2)], [K, K, Six, Seven, Seven]);
  }

  lemma Type3(joker: bool)
    ensures HandTypeOf([K, K, Six, Seven, Seven], joker) == Ok(TwoPair)
  {
    var t := [Entry(Six, 1), Entry(Seven, 2), Entry(K, 2)];
    Tally3();
    assert !Has(t, J);
    assert JokerTally(t, joker) == t;
  }

  lemma Cards4()
    ensures CardsOf("KTJJT") == Ok([K, T, J, J, T])
  {
    var s := "KTJJT";
    CardStep(s, 4, T, []);
    assert [T] + [] == [T];
    CardStep(s, 3, J, [T]);
    assert [J] + [T] == [J, T];
    CardStep(s, 2, J, [J, T]);
    assert [J] + [J, T] == [J, J, T];
    CardStep(s, 1, T, [J, J, T]);
    assert [T] + [J, J, T] == [T, J, J, T];
    CardStep(s, 0, K, [T, J, J, T]);
    assert [K] + [T, J, J, T] == [K, T, J, J, T];
  }

  lemma Tally4()
    ensures TallyOf([K, T, J, J, T]) == [Entry(T, 2), Entry(J, 2), Entry(K, 1)]
  {
    assert TallyOf([K, T]) == [Entry(T, 1), Entry(K, 1)];
    TallyStep([K, T], J, [Entry(T, 1), Entry(K, 1)], [K, T, J]);
    TallyStep([K, T, J], J, [Entry(T, 1), Entry(J, 1), Entry(K, 1)], [K, T, J, J]);
    TallyStep([K, T, J, J], T, [Entry(T, 1), Entry(J, 2), Entry(K, 1)], [K, T, J, J, T]);
  }

  lemma Type4()
    ensures HandTypeOf([K, T, J, J, T], false) == Ok(TwoPair)
    ensures HandTypeOf([K, T, J, J, T], true) == Ok(FourOfAKind)
  {
    var t := [Entry(T, 2), Entry(J, 2), Entry(K, 1)];
    Tally4();
    assert Remove(t, J) == [Entry(T, 2), Entry(K, 1)];
    assert BiggestAt([Entry(T, 2), Entry(K, 1)]) == 0;
    assert JokerTally(t, true) == [Entry(T, 4), Entry(K, 1)];
  }

  lemma Cards5()
    ensures CardsOf("QQQJA") == Ok([Q, Q, Q, J, A])
  {
    var s := "QQQJA";
    CardStep(s, 4, A, []);
    assert [A] + [] == [A];
    CardStep(s, 3, J, [A]);
    assert [J] + [A] == [J, A];
    CardStep(s, 2, Q, [J, A]);
    assert [Q] + [J, A] == [Q, J, A];
    CardStep(s, 1, Q, [Q, J, A]);
    assert [Q] + [Q, J, A] == [Q, Q, J, A];
    CardStep(s, 0, Q, [Q, Q, J, A]);
    assert [Q] + [Q, Q, J, A] == [Q, Q, Q, J, A];
  }

  lemma Tally5()
    ensures TallyOf([Q, Q, Q, J, A]) == [Entry(J, 1), Entry(Q, 3), Entry(A, 1)]
  {
    assert TallyOf([Q, Q]) == [Entry(Q, 2)];
    TallyStep([Q, Q], Q, [Entry(Q, 2)], [Q, Q, Q]);
    TallyStep([Q, Q, Q], J, [Entry(Q, 3)], [Q, Q, Q, J]);
    TallyStep([Q, Q, Q, J], A, [Entry(J, 1), Entry(Q, 3)], [Q, Q, Q, J, A]);
  }

  lemma Type5()
    ensures HandTypeOf([Q, Q, Q, J, A], false) == Ok(ThreeOfAKind)
    ensures HandTypeOf([Q, Q, Q, J, A], true) == Ok(FourOfAKind)
  {
    var t := [Entry(J, 1), Entry(Q, 3), Entry(A, 1)];
    Tally5();
    assert Remove(t, J) == [Entry(Q, 3), Entry(A, 1)];
    assert BiggestAt([Entry(Q, 3), Entry(A, 1)]) == 0;
    assert JokerTally(t, true) == [Entry(Q, 4), Entry(A, 1)];
  }

  lemma Hand1(joker: bool)
    ensures HandOf(Lines()[0], joker) == Ok(Hands(joker)[0])
  {
    Cards1();
    Type1(joker);
  }

  lemma Hand2(joker: bool)
    ensures HandOf(Lines()[1], joker) == Ok(Hands(joker)[1])
  {
    Cards2();
    Type2();
  }

  lemma Hand3(joker: bool)
    ensures HandOf(Lines()[2], joker) == Ok(Hands(joker)[2])
  {
    Cards3();
    Type3(joker);
  }

  lemma Hand4(joker: bool)
    ensures HandOf(Lines()[3], joker) == Ok(Hands(joker)[3])
  {
    Cards4();
    Type4();
  }

  lemma Hand5(joker: bool)
    ensures HandOf(Lines()[4], joker) == Ok(Hands(joker)[4])
  {
    Cards5();
    Type5();
  }
  /** Both rules parse the example into its five hands. */
  lemma Parsed(joker: bool)
    ensures ParseHands(Lines(), joker) == Ok(Hands(joker))
  {
    forall i | 0 <= i < 5
      ensures HandOf(Lines()[i], joker) == Ok(Hands(joker)[i])
    {
      if i == 0 {
        Hand1(joker);
      } else if i == 1 {
        Hand2(joker);
      } else if i == 2 {
        Hand3(joker);
      } else if i == 3 {
        Hand4(joker);
      } else {
        Hand5(joker);
      }
    }
    ParseHandsEach(Lines(), Hands(joker), joker);
  }

  /** Sorting one more hand inserts it into the sorted hands before it. */
  lemma SortStep(hs: seq<Hand>, s: seq<Hand>, h: Hand, all: seq<Hand>)
    requires SortHands(hs) == Ok(s) && all == hs + [h]
    ensures SortHands(all) == Insert(s, h)
  {
    assert all[..|hs|] == hs;
  }

  /** A hand not below the last sorted hand goes after it. */
  lemma InsertAbove(s: seq<Hand>, h: Hand, out: seq<Hand>)
    requires s != [] && Compare(h, s[|s| - 1]).Some? && Compare(h, s[|s| - 1]).value != Less
    requires out == s + [h]
    ensures Insert(s, h) == Ok(out)
  {
  }

  /** A hand below the last sorted hand goes among the ones before it. */
  lemma InsertBelow(front: seq<Hand>, last: Hand, h: Hand, r: seq<Hand>, s: seq<Hand>, out: seq<Hand>)
    requires Compare(h, last) == Some(Less) && Insert(front, h) == Ok(r)
    requires s == front + [last] && out == r + [last]
    ensures Insert(s, h) == Ok(out)
  {
    assert s[..|s| - 1] == front;
  }

  /** The winnings of one more hand at the top. */
  lemma WinningsStep(s: seq<Hand>, h: Hand, all: seq<Hand>)
    requires all == s + [h]
    ensures Winnings(all) == Winnings(s) + h.bid * |all|
  {
    assert all[..|s|] == s;
  }

  /** Five sorted hands win their bids times one to five. */
  lemma WinningsFive(a: Hand, b: Hand, c: Hand, d: Hand, e: Hand)
    ensures Winnings([a, b, c, d, e]) == a.bid + 2 * b.bid + 3 * c.bid + 4 * d.bid + 5 * e.bid
  {
    WinningsStep([], a, [a]);
    WinningsStep([a], b, [a, b]);
    WinningsStep([a, b], c, [a, b, c]);
    WinningsStep([a, b, c], d, [a, b, c, d]);
    WinningsStep([a, b, c, d], e, [a, b, c, d, e]);
  }

  /** Hands of one type whose first cards differ are ordered by them. */
  lemma FirstCardDecides(a: Hand, b: Hand)
    requires a.handType == b.handType && a.cards != [] && b.cards != []
    requires Strength(a.cards[0], a.joker) != Strength(b.cards[0], a.joker)
    ensures Compare(a, b) == Some(Order(Strength(a.cards[0], a.joker), Strength(b.cards[0], a.joker)))
  {
  }

  /** Hands of one type whose first cards tie are ordered by their second. */
  lemma SecondCardDecides(a: Hand, b: Hand)
    requires a.handType == b.handType && |a.cards| > 1 && |b.cards| > 1
    requires Strength(a.cards[0], a.joker) == Strength(b.cards[0], a.joker)
    requires Strength(a.cards[1], a.joker) != Strength(b.cards[1], a.joker)
    ensures Compare(a, b) == Some(Order(Strength(a.cards[1], a.joker), Strength(b.cards[1], a.joker)))
  {
    var xs, ys := a.cards[1..], b.cards[1..];
    assert xs[0] == a.cards[1] && ys[0] == b.cards[1];
    assert FirstDifference(a.cards, b.cards, a.joker) == FirstDifference(xs, ys, a.joker);
  }

  /** Part one's comparisons decided by the hand types. */
  lemma CompareOneByType()
    ensures Compare(Hands(false)[1], Hands(false)[0]) == Some(Greater)
    ensures Compare(Hands(false)[2], Hands(false)[1]) == Some(Less)
    ensures Compare(Hands(false)[2], Hands(false)[0]) == Some(Greater)
    ensures Compare(Hands(false)[3], Hands(false)[1]) == Some(Less)
    ensures Compare(Hands(false)[3], Hands(false)[0]) == Some(Greater)
  {
  }

  /** Part one's comparisons decided by the cards: KTJJT below KK677,
      QQQJA above T55J5. */
  lemma CompareOneByCards()
    ensures Compare(Hands(false)[3], Hands(false)[2]) == Some(Less)
    ensures Compare(Hands(false)[4], Hands(false)[1]) == Some(Greater)
  {
    var hs := Hands(false);
    assert Compare(hs[3], hs[2]) == Some(Less) by { SecondCardDecides(hs[3], hs[2]); }
    assert Compare(hs[4], hs[1]) == Some(Greater) by { FirstCardDecides(hs[4], hs[1]); }
  }

  /** The insertions of part one, for any hands that compare as the
      example's do. */
  lemma InsertionsOne(h1: Hand, h2: Hand, h3: Hand, h4: Hand, h5: Hand)
    requires Compare(h2, h1) == Some(Greater) && Compare(h3, h2) == Some(Less) && Compare(h3, h1) == Some(Greater)
    requires Compare(h4, h2) == Some(Less) && Compare(h4, h3) == Some(Less) && Compare(h4, h1) == Some(Greater)
    requires Compare(h5, h2) == Some(Greater)
    ensures SortHands([h1, h2, h3, h4, h5]) == Ok([h1, h4, h3, h2, h5])
  {
    SortStep([], [], h1, [h1]);
    SortStep([h1], [h1], h2, [h1, h2]);
    InsertAbove([h1], h2, [h1, h2]);
    SortStep([h1, h2], [h1, h2], h3, [h1, h2, h3]);
    InsertAbove([h1], h3, [h1, h3]);
    InsertBelow([h1], h2, h3, [h1, h3], [h1, h2], [h1, h3, h2]);
    SortStep([h1, h2, h3], [h1, h3, h2], h4, [h1, h2, h3, h4]);
    InsertAbove([h1], h4, [h1, h4]);
    InsertBelow([h1], h3, h4, [h1, h4], [h1, h3], [h1, h4, h3]);
    InsertBelow([h1, h3], h2, h4, [h1, h4, h3], [h1, h3, h2], [h1, h4, h3, h2]);
    SortStep([h1, h2, h3, h4], [h1, h4, h3, h2], h5, [h1, h2, h3, h4, h5]);
    InsertAbove([h1, h4, h3, h2], h5, [h1, h4, h3, h2, h5]);
  }

  /** Part one's order: 32T3K, KTJJT, KK677, T55J5, QQQJA. */
  lemma SortedOne()
    ensures SortHands(Hands(false)) == Ok([Hands(false)[0], Hands(false)[3], Hands(false)[2], Hands(false)[1], Hands(false)[4]])
  {
    var H := Hands(false);
    CompareOneByType();
    CompareOneByCards();
    InsertionsOne(H[0], H[1], H[2], H[3], H[4]);
    assert H == [H[0], H[1], H[2], H[3], H[4]];
  }

  /** Part two's comparisons decided by the hand types. */
  lemma CompareTwoByType()
    ensures Compare(Hands(true)[1], Hands(true)[0]) == Some(Greater)
    ensures Compare(Hands(true)[2], Hands(true)[1]) == Some(Less)
    ensures Compare(Hands(true)[2], Hands(true)[0]) == Some(Greater)
  {
  }

  /** Part two's comparisons decided by the cards, with J the weakest:
      KTJJT above T55J5, QQQJA below KTJJT and above T55J5. */
  lemma CompareTwoByCards()
    ensures Compare(Hands(true)[3], Hands(true)[1]) == Some(Greater)
    ensures Compare(Hands(true)[4], Hands(true)[3]) == Some(Less)
    ensures Compare(Hands(true)[4], Hands(true)[1]) == Some(Greater)
  {
    var hs := Hands(true);
    assert Compare(hs[3], hs[1]) == Some(Greater) by { FirstCardDecides(hs[3], hs[1]); }
    assert Compare(hs[4], hs[3]) == Some(Less) by { FirstCardDecides(hs[4], hs[3]); }
    assert Compare(hs[4], hs[1]) == Some(Greater) by { FirstCardDecides(hs[4], hs[1]); }
  }

  /** The insertions of part two, for any hands that compare as the
      example's do. */
  lemma InsertionsTwo(h1: Hand, h2: Hand, h3: Hand, h4: Hand, h5: Hand)
    requires Compare(h2, h1) == Some(Greater) && Compare(h3, h2) == Some(Less) && Compare(h3, h1) == Some(Greater)
    requires Compare(h4, h2) == Some(Greater) && Compare(h5, h4) == Some(Less) && Compare(h5, h2) == Some(Greater)
    ensures SortHands([h1, h2, h3, h4, h5]) == Ok([h1, h3, h2, h5, h4])
  {
    SortStep([], [], h1, [h1]);
    SortStep([h1], [h1], h2, [h1, h2]);
    InsertAbove([h1], h2, [h1, h2]);
    SortStep([h1, h2], [h1, h2], h3, [h1, h2, h3]);
    InsertAbove([h1], h3, [h1, h3]);
    InsertBelow([h1], h2, h3, [h1, h3], [h1, h2], [h1, h3, h2]);
    SortStep([h1, h2, h3], [h1, h3, h2], h4, [h1, h2, h3, h4]);
    InsertAbove([h1, h3, h2], h4, [h1, h3, h2, h4]);
    SortStep([h1, h2, h3, h4], [h1, h3, h2, h4], h5, [h1, h2, h3, h4, h5]);
    InsertAbove([h1, h3, h2], h5, [h1, h3, h2, h5]);
    InsertBelow([h1, h3, h2], h4, h5, [h1, h3, h2, h5], [h1, h3, h2, h4], [h1, h3, h2, h5, h4]);
  }

  /** Part two's order: 32T3K, KK677, T55J5, QQQJA, KTJJT. */
  lemma SortedTwo()
    ensures SortHands(Hands(true)) == Ok([Hands(true)[0], Hands(true)[2], Hands(true)[1], Hands(true)[4], Hands(true)[3]])
  {
    var H := Hands(true);
    CompareTwoByType();
    CompareTwoByCards();
    InsertionsTwo(H[0], H[1], H[2], H[3], H[4]);
    assert H == [H[0], H[1], H[2], H[3], H[4]];
  }

  /** The puzzle's first example answer. */
  lemma ExampleOne()
    ensures PartOne(Lines()) == Ok(6440)
  {
    var H := Hands(false);
    Parsed(false);
    SortedOne();
    WinningsFive(H[0], H[3], H[2], H[1], H[4]);
  }

  /** The puzzle's second example answer. */
  lemma ExampleTwo()
    ensures PartTwo(Lines()) == Ok(5905)
  {
    var H := Hands(true);
    Parsed(true);
    SortedTwo();
    WinningsFive(H[0], H[2], H[1], H[4], H[3]);
  }
}
