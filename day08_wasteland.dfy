/** Day 8: walking a network of named nodes by a cyclic list of left/right
    instructions, and combining the walks of several ghosts with `lcm`. */
module Wasteland {
  import opened Common

  // ---------------------------------------------------------------------------
  // Divisibility, gcd and lcm

  function Mul(a: int, b: int): int { a * b }

  /** `d` divides `x` (zero divides only zero). */
  ghost predicate Divides(d: nat, x: nat)
  {
    exists k: int :: Mul(d, k) == x
  }

  lemma DividesBy(d: nat, x: nat, k: int)
    requires d * k == x
    ensures Divides(d, x)
  {
    assert Mul(d, k) == x;
  }

  /** Euclid's algorithm, with `gcd(0, 0) = 0` and `gcd(a, 0) = a`. */
  function Gcd(a: nat, b: nat): (r: nat)
    ensures r == 0 <==> a == 0 && b == 0
    decreases b
  {
    if a == 0 && b == 0 then 0
    else if b == 0 then a
    else
      var g := Gcd(b, a % b);
      assert a == b * (a / b) + a % b;
      g
  }

  lemma Distribute(g: int, i: int, q: int, j: int)
    ensures (g * i) * q + g * j == g * (i * q + j)
  {
  }

  lemma {:induction false} GcdDivides(a: nat, b: nat)
    ensures Divides(Gcd(a, b), a) && Divides(Gcd(a, b), b)
    decreases b
  {
    if b == 0 {
      DividesBy(a, a, 1);
      DividesBy(a, 0, 0);
    } else {
      var g := Gcd(b, a % b);
      GcdDivides(b, a % b);
      var i :| Mul(g, i) == b;
      var j :| Mul(g, j) == a % b;
      var q := a / b;
      assert a == b * q + a % b;
      Distribute(g, i, q, j);
      DividesBy(g, a, i * q + j);
      DividesBy(g, b, i);
    }
  }

  lemma {:induction false} GcdGreatest(a: nat, b: nat, d: nat)
    requires Divides(d, a) && Divides(d, b)
    ensures Divides(d, Gcd(a, b))
    decreases b
  {
    if b != 0 {
      var i :| Mul(d, i) == a;
      var j :| Mul(d, j) == b;
      var q := a / b;
      assert a % b == a - b * q;
      Distribute(d, j, -q, i);
      assert a % b == d * (i - j * q);
      DividesBy(d, a % b, i - j * q);
      GcdGreatest(b, a % b, d);
    }
  }

  lemma BezoutStep(a: int, b: int, q: int, r: int, x: int, y: int, g: int)
    requires a == b * q + r && b * x + r * y == g
    ensures a * y + b * (x - q * y) == g
  {
    assert r * y == a * y - (b * q) * y;
    assert (b * q) * y == b * (q * y);
  }

  /** Bezout's identity: the gcd is an integer combination of its arguments. */
  lemma {:induction false} Bezout(a: nat, b: nat) returns (x: int, y: int)
    ensures a * x + b * y == Gcd(a, b)
    decreases b
  {
    if b == 0 {
      x, y := 1, 0;
    } else {
      var x', y' := Bezout(b, a % b);
      BezoutStep(a, b, a / b, a % b, x', y', Gcd(a, b));
      x, y := y', x' - (a / b) * y';
    }
  }

  /** `lcm(a, b) = a * b / gcd(a, b)`; dividing by `gcd(0, 0) = 0` panics. */
  function Lcm(a: nat, b: nat): (r: Result<nat>)
    ensures r.Panic? <==> a == 0 && b == 0
  {
    if Gcd(a, b) == 0 then Panic else Ok(a * b / Gcd(a, b))
  }

  lemma ExactDivision(g: int, k: int)
    requires g > 0
    ensures (g * k) / g == k
  {
    var x := g * k;
    var z := k - x / g;
    assert g * z == x % g;
  }

  /** `a * b / gcd(a, b)` is `i * b` where `a = gcd(a, b) * i`. */
  lemma LcmShape(a: nat, b: nat) returns (g: nat, i: int)
    requires a != 0 || b != 0
    ensures g == Gcd(a, b) && g > 0 && a == g * i
    ensures Lcm(a, b).Ok? && Lcm(a, b).value == i * b
  {
    g := Gcd(a, b);
    GcdDivides(a, b);
    i :| Mul(g, i) == a;
    assert a * b == g * (i * b);
    ExactDivision(g, i * b);
  }

  /** The lcm is a multiple of both arguments. */
  lemma LcmCommonMultiple(a: nat, b: nat)
    requires a != 0 || b != 0
    ensures Divides(a, Lcm(a, b).value) && Divides(b, Lcm(a, b).value)
  {
    var g, i := LcmShape(a, b);
    GcdDivides(a, b);
    var j :| Mul(g, j) == b;
    assert i * b == i * (g * j) == (g * i) * j;
    DividesBy(a, i * b, j);
    DividesBy(b, i * b, i);
  }

  lemma DistributeLeft(m: int, p: int, q: int)
    ensures m * (p + q) == m * p + m * q
  {
  }

  lemma Rearrange(p: int, q: int, r: int, s: int)
    ensures (p * q) * (r * s) == (p * r) * (q * s)
  {
  }

  lemma Cancel(g: int, u: int, v: int)
    requires g > 0 && g * u == g * v
    ensures u == v
  {
    assert g * (u - v) == 0;
  }

  /** The lcm divides every common multiple of the arguments. */
  lemma LcmLeast(a: nat, b: nat, m: nat)
    requires a != 0 || b != 0
    requires Divides(a, m) && Divides(b, m)
    ensures Divides(Lcm(a, b).value, m)
  {
    var g, i := LcmShape(a, b);
    var x, y := Bezout(a, b);
    var s :| Mul(a, s) == m;
    var t :| Mul(b, t) == m;
    var k := CommonMultipleQuotient(a, b, g, i, x, y, s, t, m);
    DividesBy(i * b, m, k);
  }

  /** With `a = g * i` and `a * x + b * y = g`, a common multiple `m` of `a`
      and `b` is a multiple of `i * b`. */
  lemma CommonMultipleQuotient(a: int, b: int, g: int, i: int, x: int, y: int, s: int, t: int, m: int)
    returns (k: int)
    requires g > 0 && a == g * i && a * x + b * y == g
    requires a * s == m && b * t == m
    ensures (i * b) * k == m
  {
    k := x * t + y * s;
    calc {
      g * m;
      { DistributeLeft(m, a * x, b * y); }
      (a * x) * m + (b * y) * m;
      (a * x) * (b * t) + (b * y) * (a * s);
      { Rearrange(a, x, b, t); Rearrange(b, y, a, s); }
      (a * b) * (x * t) + (b * a) * (y * s);
      { DistributeLeft(a * b, x * t, y * s); }
      (a * b) * k;
      ((g * i) * b) * k;
      { Rearrange(g, i * b, 1, k); }
      g * ((i * b) * k);
    }
    Cancel(g, m, (i * b) * k);
  }

  /** The lcm is zero exactly when an argument is. */
  lemma LcmZero(a: nat, b: nat)
    requires a != 0 || b != 0
    ensures Lcm(a, b).value == 0 <==> a == 0 || b == 0
  {
    var g, i := LcmShape(a, b);
  }

  lemma DividesTransitive(a: nat, b: nat, c: nat)
    requires Divides(a, b) && Divides(b, c)
    ensures Divides(a, c)
  {
    var i :| Mul(a, i) == b;
    var j :| Mul(b, j) == c;
    assert c == (a * i) * j == a * (i * j);
    DividesBy(a, c, i * j);
  }

  // ---------------------------------------------------------------------------
  // The network

  datatype Instruction = Left | Right

  /** `From<char>`: any character other than `L` and `R` is unreachable. */
  function InstructionOf(c: char): (r: Option<Instruction>)
    ensures r == Some(Left) <==> c == 'L'
    ensures r == Some(Right) <==> c == 'R'
    ensures r.None? <==> c != 'L' && c != 'R'
  {
    match c
    case 'L' => Some(Left)
    case 'R' => Some(Right)
    case _ => None
  }

  /** A node's two neighbours. */
  datatype Node = Node(left: string, right: string)

  type Network = map<string, Node>

  function Follow(node: Node, instruction: Instruction): string
  {
    match instruction
    case Left => node.left
    case Right => node.right
  }

  /** Part one stops at `ZZZ`, part two at any node whose name ends in `Z`. */
  datatype Goal = Exactly(name: string) | EndsWith(suffix: char)

  predicate EndsIn(name: string, c: char)
  {
    |name| > 0 && name[|name| - 1] == c
  }

  predicate Reached(goal: Goal, name: string)
  {
    match goal
    case Exactly(n) => name == n
    case EndsWith(c) => EndsIn(name, c)
  }

  /** Where the walk from `start` is after `k` steps, step `j` following
      instruction `j mod n`; `None` once a node without an entry was left. */
  function NodeAfter(instrs: seq<Instruction>, nodes: Network, start: string, k: nat): Option<string>
    requires |instrs| > 0
  {
    if k == 0 then Some(start)
    else match NodeAfter(instrs, nodes, start, k - 1)
      case None => None
      case Some(n) => if n in nodes then Some(Follow(nodes[n], instrs[(k - 1) % |instrs|])) else None
  }

  /** The walk has existed and not reached the goal at any step before `k`. */
  predicate Unfinished(instrs: seq<Instruction>, nodes: Network, goal: Goal, start: string, k: nat)
    requires |instrs| > 0
  {
    forall j :: 0 <= j < k ==>
      NodeAfter(instrs, nodes, start, j).Some? && !Reached(goal, NodeAfter(instrs, nodes, start, j).value)
  }

  /** Step `k` is the first at which the walk stands on a goal. */
  predicate FirstReach(instrs: seq<Instruction>, nodes: Network, goal: Goal, start: string, k: nat)
    requires |instrs| > 0
  {
    Unfinished(instrs, nodes, goal, start, k)
    && NodeAfter(instrs, nodes, start, k).Some? && Reached(goal, NodeAfter(instrs, nodes, start, k).value)
  }

  /** How a walk ends: the number of steps to the goal, a panic on a node without
      an entry, or running out of the fuel that bounds the model's walks. */
  datatype Run<T> = Done(value: T) | Panicked | OutOfFuel

  function ArrivalFrom(instrs: seq<Instruction>, nodes: Network, goal: Goal, node: string, step: nat, fuel: nat): Run<nat>
    requires |instrs| > 0
    decreases fuel
  {
    if Reached(goal, node) then Done(step)
    else if fuel == 0 then OutOfFuel
    else if node !in nodes then Panicked
    else ArrivalFrom(instrs, nodes, goal, Follow(nodes[node], instrs[step % |instrs|]), step + 1, fuel - 1)
  }

  /** The outcome of a walk of at most `fuel` moves. An empty instruction list
      ends the walk at once with 0 steps, since cycling it yields nothing. */
  function Arrival(instrs: seq<Instruction>, nodes: Network, goal: Goal, start: string, fuel: nat): (r: Run<nat>)
    ensures instrs == [] ==> r == Done(0)
    ensures instrs != [] && r.Done? ==> r.value <= fuel && FirstReach(instrs, nodes, goal, start, r.value)
    ensures instrs != [] && r.Panicked? ==>
      exists k :: 0 < k <= fuel && Unfinished(instrs, nodes, goal, start, k)
                  && NodeAfter(instrs, nodes, start, k).None?
    ensures instrs != [] && r.OutOfFuel? ==> Unfinished(instrs, nodes, goal, start, fuel + 1)
  {
    if instrs == [] then Done(0)
    else
      ArrivalFromMeaning(instrs, nodes, goal, start, start, 0, fuel);
      ArrivalFrom(instrs, nodes, goal, start, 0, fuel)
  }

  lemma {:induction false} ArrivalFromMeaning(instrs: seq<Instruction>, nodes: Network, goal: Goal,
                                              start: string, node: string, step: nat, fuel: nat)
    requires |instrs| > 0
    requires NodeAfter(instrs, nodes, start, step) == Some(node)
    requires Unfinished(instrs, nodes, goal, start, step)
    ensures var r := ArrivalFrom(instrs, nodes, goal, node, step, fuel);
      (r.Done? ==> step <= r.value <= step + fuel && FirstReach(instrs, nodes, goal, start, r.value))
      && (r.Panicked? ==>
            exists k :: step < k <= step + fuel && Unfinished(instrs, nodes, goal, start, k)
                        && NodeAfter(instrs, nodes, start, k).None?)
      && (r.OutOfFuel? ==> Unfinished(instrs, nodes, goal, start, step + fuel + 1))
    decreases fuel
  {
    if Reached(goal, node) {
    } else if fuel == 0 {
    } else if node !in nodes {
      assert NodeAfter(instrs, nodes, start, step + 1).None?;
    } else {
      var next := Follow(nodes[node], instrs[step % |instrs|]);
      assert NodeAfter(instrs, nodes, start, step + 1) == Some(next);
      ArrivalFromMeaning(instrs, nodes, goal, start, next, step + 1, fuel - 1);
    }
  }

  /** The first arrival is unique. */
  lemma FirstReachUnique(instrs: seq<Instruction>, nodes: Network, goal: Goal, start: string, j: nat, k: nat)
    requires |instrs| > 0
    requires FirstReach(instrs, nodes, goal, start, j) && FirstReach(instrs, nodes, goal, start, k)
    ensures j == k
  {
  }

  lemma {:induction false} ArrivalFromMoreFuel(instrs: seq<Instruction>, nodes: Network, goal: Goal,
                                               node: string, step: nat, fuel: nat, more: nat)
    requires |instrs| > 0
    requires ArrivalFrom(instrs, nodes, goal, node, step, fuel).Done?
    requires fuel <= more
    ensures ArrivalFrom(instrs, nodes, goal, node, step, more) == ArrivalFrom(instrs, nodes, goal, node, step, fuel)
    decreases fuel
  {
    if !Reached(goal, node) {
      ArrivalFromMoreFuel(instrs, nodes, goal, Follow(nodes[node], instrs[step % |instrs|]), step + 1, fuel - 1, more - 1);
    }
  }

  /** Once the fuel suffices for the walk to arrive, more fuel changes nothing. */
  lemma ArrivalMoreFuel(instrs: seq<Instruction>, nodes: Network, goal: Goal, start: string, fuel: nat, more: nat)
    requires Arrival(instrs, nodes, goal, start, fuel).Done? && fuel <= more
    ensures Arrival(instrs, nodes, goal, start, more) == Arrival(instrs, nodes, goal, start, fuel)
  {
    if instrs != [] {
      ArrivalFromMoreFuel(instrs, nodes, goal, start, 0, fuel, more);
    }
  }

  /** The loop shared by `part_one` and each ghost of `part_two`: follow the
      cycled instructions from `start`, stopping at the first step that stands
      on a goal. */
  method Walk(instrs: seq<Instruction>, nodes: Network, goal: Goal, start: string, fuel: nat) returns (r: Run<nat>)
    ensures r == Arrival(instrs, nodes, goal, start, fuel)
  {
    if instrs == [] {
      return Done(0);
    }
    var node := start;
    var step := 0;
    while !Reached(goal, node)
      invariant step <= fuel
      invariant ArrivalFrom(instrs, nodes, goal, node, step, fuel - step) == Arrival(instrs, nodes, goal, start, fuel)
      decreases fuel - step
    {
      if step == fuel {
        return OutOfFuel;
      }
      if node !in nodes {
        return Panicked;
      }
      node := Follow(nodes[node], instrs[step % |instrs|]);
      step := step + 1;
    }
    return Done(step);
  }

  /** Part one: the steps from `AAA` to `ZZZ`. */
  method PartOne(instrs: seq<Instruction>, nodes: Network, fuel: nat) returns (r: Run<nat>)
    ensures r == Arrival(instrs, nodes, Exactly("ZZZ"), "AAA", fuel)
  {
    r := Walk(instrs, nodes, Exactly("ZZZ"), "AAA", fuel);
  }

  // ---------------------------------------------------------------------------
  // Part two

  /** The starting nodes: the keys ending in `A`, in the order given. */
  function StartNodes(keys: seq<string>): (r: seq<string>)
    ensures forall n :: n in r <==> n in keys && EndsIn(n, 'A')
  {
    if keys == [] then []
    else (if EndsIn(keys[0], 'A') then [keys[0]] else []) + StartNodes(keys[1..])
  }

  /** The `lcm` reduction of the ghosts' step counts, walking them in order;
      `acc` is the reduction so far (`None` before the first ghost). */
  function LcmOfArrivals(instrs: seq<Instruction>, nodes: Network, starts: seq<string>, fuel: nat, acc: Option<nat>): Run<Option<nat>>
  {
    if starts == [] then Done(acc)
    else match Arrival(instrs, nodes, EndsWith('Z'), starts[0], fuel)
      case Panicked => Panicked
      case OutOfFuel => OutOfFuel
      case Done(steps) =>
        match acc
        case None => LcmOfArrivals(instrs, nodes, starts[1..], fuel, Some(steps))
        case Some(a) =>
          match Lcm(a, steps)
          case Panic => Panicked
          case Ok(l) => LcmOfArrivals(instrs, nodes, starts[1..], fuel, Some(l))
  }

  /** The reduction is `None` exactly when there is no ghost, and otherwise a
      multiple of every ghost's step count. */
  lemma {:induction false} LcmOfArrivalsMultiple(instrs: seq<Instruction>, nodes: Network, starts: seq<string>, fuel: nat, acc: Option<nat>)
    requires LcmOfArrivals(instrs, nodes, starts, fuel, acc).Done?
    ensures LcmOfArrivals(instrs, nodes, starts, fuel, acc).value.None? <==> acc.None? && starts == []
    ensures var v := LcmOfArrivals(instrs, nodes, starts, fuel, acc).value;
      v.Some? && acc.Some? ==> Divides(acc.value, v.value)
    ensures var v := LcmOfArrivals(instrs, nodes, starts, fuel, acc).value;
      forall i :: 0 <= i < |starts| ==>
        Arrival(instrs, nodes, EndsWith('Z'), starts[i], fuel).Done?
        && v.Some? && Divides(Arrival(instrs, nodes, EndsWith('Z'), starts[i], fuel).value, v.value)
    decreases |starts|
  {
    if starts != [] {
      var steps := Arrival(instrs, nodes, EndsWith('Z'), starts[0], fuel).value;
      var next := if acc.None? then steps else Lcm(acc.value, steps).value;
      if acc.Some? {
        LcmCommonMultiple(acc.value, steps);
      } else {
        DividesBy(steps, steps, 1);
      }
      LcmOfArrivalsMultiple(instrs, nodes, starts[1..], fuel, Some(next));
      assert LcmOfArrivals(instrs, nodes, starts, fuel, acc) == LcmOfArrivals(instrs, nodes, starts[1..], fuel, Some(next));
      var v := LcmOfArrivals(instrs, nodes, starts, fuel, acc).value;
      if acc.Some? {
        DividesTransitive(acc.value, next, v.value);
      }
      DividesTransitive(steps, next, v.value);
      forall i | 0 <= i < |starts|
        ensures Arrival(instrs, nodes, EndsWith('Z'), starts[i], fuel).Done?
        ensures Divides(Arrival(instrs, nodes, EndsWith('Z'), starts[i], fuel).value, v.value)
      {
        if i > 0 {
          assert starts[i] == starts[1..][i - 1];
        }
      }
    } else if acc.Some? {
      DividesBy(acc.value, acc.value, 1);
    }
  }

  /** The reduction divides every common multiple of the ghosts' step counts:
      it is their least common multiple. */
  lemma {:induction false} LcmOfArrivalsLeast(instrs: seq<Instruction>, nodes: Network, starts: seq<string>, fuel: nat, acc: Option<nat>, m: nat)
    requires LcmOfArrivals(instrs, nodes, starts, fuel, acc).Done?
    requires LcmOfArrivals(instrs, nodes, starts, fuel, acc).value.Some?
    requires acc.Some? ==> Divides(acc.value, m)
    requires forall i :: 0 <= i < |starts| ==>
      Arrival(instrs, nodes, EndsWith('Z'), starts[i], fuel).Done?
      && Divides(Arrival(instrs, nodes, EndsWith('Z'), starts[i], fuel).value, m)
    ensures Divides(LcmOfArrivals(instrs, nodes, starts, fuel, acc).value.value, m)
    decreases |starts|
  {
    if starts != [] {
      var steps := Arrival(instrs, nodes, EndsWith('Z'), starts[0], fuel).value;
      var next := if acc.None? then steps else Lcm(acc.value, steps).value;
      if acc.Some? {
        LcmLeast(acc.value, steps, m);
      }
      forall i | 0 <= i < |starts[1..]|
        ensures Arrival(instrs, nodes, EndsWith('Z'), starts[1..][i], fuel).Done?
        ensures Divides(Arrival(instrs, nodes, EndsWith('Z'), starts[1..][i], fuel).value, m)
      {
        assert starts[1..][i] == starts[i + 1];
      }
      LcmOfArrivalsLeast(instrs, nodes, starts[1..], fuel, Some(next), m);
    }
  }

  /** With no instructions every ghost arrives after 0 steps, so from the
      second ghost on the reduction asks for `lcm(0, 0)`, whose `gcd` is 0:
      the division by it panics. */
  lemma EmptyInstructionsPanic(nodes: Network, starts: seq<string>, fuel: nat)
    requires |starts| >= 2
    ensures LcmOfArrivals([], nodes, starts, fuel, None) == Panicked
  {
    assert starts[1..][0] == starts[1];
    assert LcmOfArrivals([], nodes, starts, fuel, None) == LcmOfArrivals([], nodes, starts[1..], fuel, Some(0));
  }

  /** Part two: walk every ghost from a start node to a node ending in `Z` and
      reduce the step counts with `lcm`. `keys` is the network's keys, each
      once, in the map's iteration order. The answer is `None` exactly when no
      node ends in `A`. */
  method PartTwo(instrs: seq<Instruction>, nodes: Network, keys: seq<string>, fuel: nat) returns (r: Run<Option<nat>>)
    requires forall n :: n in keys <==> n in nodes
    requires forall i, j :: 0 <= i < j < |keys| ==> keys[i] != keys[j]
    ensures r == LcmOfArrivals(instrs, nodes, StartNodes(keys), fuel, None)
    ensures r.Done? ==> (r.value.None? <==> forall n :: n in nodes ==> !EndsIn(n, 'A'))
  {
    var starts := StartNodes(keys);
    var acc: Option<nat> := None;
    var i := 0;
    while i < |starts|
      invariant 0 <= i <= |starts|
      invariant LcmOfArrivals(instrs, nodes, starts[i..], fuel, acc) == LcmOfArrivals(instrs, nodes, starts, fuel, None)
    {
      assert starts[i..][1..] == starts[i + 1..];
      var steps := Walk(instrs, nodes, EndsWith('Z'), starts[i], fuel);
      match steps {
        case Panicked => return Panicked;
        case OutOfFuel => return OutOfFuel;
        case Done(s) =>
          match acc {
            case None => acc := Some(s);
            case Some(a) =>
              match Lcm(a, s) {
                case Panic => return Panicked;
                case Ok(l) => acc := Some(l);
              }
          }
      }
      i := i + 1;
    }
    r := Done(acc);
    LcmOfArrivalsMultiple(instrs, nodes, starts, fuel, None);
    if starts != [] {
      assert starts[0] in nodes;
    }
  }
}

module WastelandExample {
  import opened Common
  import opened Wasteland

  /** The network of the first example: `AAA = (BBB, BBB)`, `BBB = (AAA, ZZZ)`,
      `ZZZ = (ZZZ, ZZZ)`, walked by `LLR`. */
  lemma ExamplePartOne(instrs: seq<Instruction>, nodes: Network)
    requires instrs == [Left, Left, Right]
    requires nodes == map["AAA" := Node("BBB", "BBB"), "BBB" := Node("AAA", "ZZZ"), "ZZZ" := Node("ZZZ", "ZZZ")]
    ensures Arrival(instrs, nodes, Exactly("ZZZ"), "AAA", 6) == Done(6)
  {
    var g := Exactly("ZZZ");
    assert ArrivalFrom(instrs, nodes, g, "ZZZ", 6, 0) == Done(6);
    assert ArrivalFrom(instrs, nodes, g, "BBB", 5, 1) == Done(6);
    assert ArrivalFrom(instrs, nodes, g, "AAA", 4, 2) == Done(6);
    assert ArrivalFrom(instrs, nodes, g, "BBB", 3, 3) == Done(6);
    assert ArrivalFrom(instrs, nodes, g, "AAA", 2, 4) == Done(6);
    assert ArrivalFrom(instrs, nodes, g, "BBB", 1, 5) == Done(6);
  }

  /** The ghost network of the second example, walked by `LR`. */
  predicate GhostNetwork(instrs: seq<Instruction>, nodes: Network)
  {
    instrs == [Left, Right]
    && nodes == map["11A" := Node("11B", "XXX"), "11B" := Node("XXX", "11Z"), "11Z" := Node("11B", "XXX"),
                    "22A" := Node("22B", "XXX"), "22B" := Node("22C", "22C"), "22C" := Node("22Z", "22Z"),
                    "22Z" := Node("22B", "22B"), "XXX" := Node("XXX", "XXX")]
  }

  lemma GhostOne(instrs: seq<Instruction>, nodes: Network)
    requires GhostNetwork(instrs, nodes)
    ensures Arrival(instrs, nodes, EndsWith('Z'), "11A", 3) == Done(2)
  {
    var g := EndsWith('Z');
    assert ArrivalFrom(instrs, nodes, g, "11Z", 2, 1) == Done(2);
    assert ArrivalFrom(instrs, nodes, g, "11B", 1, 2) == Done(2);
  }

  lemma GhostTwo(instrs: seq<Instruction>, nodes: Network)
    requires GhostNetwork(instrs, nodes)
    ensures Arrival(instrs, nodes, EndsWith('Z'), "22A", 3) == Done(3)
  {
    var g := EndsWith('Z');
    assert ArrivalFrom(instrs, nodes, g, "22Z", 3, 0) == Done(3);
    assert ArrivalFrom(instrs, nodes, g, "22C", 2, 1) == Done(3);
    assert ArrivalFrom(instrs, nodes, g, "22B", 1, 2) == Done(3);
  }

  lemma LcmTwoThree()
    ensures Lcm(2, 3) == Ok(6)
  {
    assert Gcd(2, 3) == 1 by {
      assert Gcd(3, 2) == Gcd(2, 1) == Gcd(1, 0) == 1;
    }
  }

  lemma {:induction false} NoStartNodes(names: seq<string>)
    requires forall j :: 0 <= j < |names| ==> !EndsIn(names[j], 'A')
    ensures StartNodes(names) == []
  {
    if names != [] {
      assert forall j :: 0 <= j < |names[1..]| ==> names[1..][j] == names[j + 1];
      NoStartNodes(names[1..]);
    }
  }

  /** Of eight keys, the first and the fourth end in `A`. */
  lemma TwoStarts(keys: seq<string>)
    requires |keys| == 8
    requires forall j :: 0 <= j < 8 ==> (EndsIn(keys[j], 'A') <==> j == 0 || j == 3)
    ensures StartNodes(keys) == [keys[0], keys[3]]
  {
    NoStartNodes(keys[4..]);
    assert keys[3..][1..] == keys[4..] && keys[3..][0] == keys[3];
    assert StartNodes(keys[3..]) == [keys[3]];
    assert keys[2..][1..] == keys[3..] && keys[2..][0] == keys[2];
    assert StartNodes(keys[2..]) == [keys[3]];
    assert keys[1..][1..] == keys[2..] && keys[1..][0] == keys[1];
    assert StartNodes(keys[1..]) == [keys[3]];
  }

  /** Of the example's keys, in the map's order, `11A` and `22A` are starts. */
  lemma ExampleStarts(keys: seq<string>)
    requires keys == ["11A", "11B", "11Z", "22A", "22B", "22C", "22Z", "XXX"]
    ensures StartNodes(keys) == ["11A", "22A"]
  {
    forall j | 0 <= j < 8 ensures EndsIn(keys[j], 'A') <==> j == 0 || j == 3 {
    }
    TwoStarts(keys);
  }

  /** The two ghosts arrive after 2 and 3 steps; together after 6. */
  lemma ExamplePartTwo(instrs: seq<Instruction>, nodes: Network, keys: seq<string>)
    requires GhostNetwork(instrs, nodes)
    requires keys == ["11A", "11B", "11Z", "22A", "22B", "22C", "22Z", "XXX"]
    ensures LcmOfArrivals(instrs, nodes, StartNodes(keys), 3, None) == Done(Some(6))
  {
    var starts := StartNodes(keys);
    ExampleStarts(keys);
    GhostOne(instrs, nodes);
    GhostTwo(instrs, nodes);
    LcmTwoThree();
    assert starts[1..] == ["22A"] && starts[1..][1..] == [];
    assert LcmOfArrivals(instrs, nodes, starts[1..], 3, Some(2)) == Done(Some(6));
  }
}
