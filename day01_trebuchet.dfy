/** Day 1: calibration values. Every line of the document yields a two-digit
    number made of the first and the last digit found in it; part two also
    reads the digits one to nine spelled out as words. */
module Trebuchet {
  import opened Common

  // ---------------------------------------------------------------------------
  // Part one: ASCII digits

  /** The index of the first ASCII digit of `line`, as `chars().find`. */
  function FirstDigit(line: string): (r: Option<nat>)
    ensures r.None? <==> forall i :: 0 <= i < |line| ==> !IsDigit(line[i])
    ensures r.Some? ==> r.value < |line| && IsDigit(line[r.value])
    ensures r.Some? ==> forall i :: 0 <= i < r.value ==> !IsDigit(line[i])
  {
    if line == [] then None
    else if IsDigit(line[0]) then Some(0)
    else
      assert forall i :: 1 <= i < |line| ==> line[i] == line[1..][i - 1];
      match FirstDigit(line[1..])
      case None => None
      case Some(k) => Some(k + 1)
  }

  /** The index of the last ASCII digit of `line`, as `rev().find`. */
  function LastDigit(line: string): (r: Option<nat>)
    ensures r.None? <==> forall i :: 0 <= i < |line| ==> !IsDigit(line[i])
    ensures r.Some? ==> r.value < |line| && IsDigit(line[r.value])
    ensures r.Some? ==> forall i :: r.value < i < |line| ==> !IsDigit(line[i])
  {
    if line == [] then None
    else if IsDigit(line[|line| - 1]) then Some(|line| - 1)
    else
      assert forall i :: 0 <= i < |line| - 1 ==> line[i] == line[..|line| - 1][i];
      LastDigit(line[..|line| - 1])
  }

  /** The line's value in part one: the first and the last digit written one
      after the other and read back as a number (`format!` then `parse`). The
      last digit is searched among the characters after the first one, falling
      back to the first; a line without a digit panics (`expect`). */
  function LineValue(line: string): (r: Result<nat>)
    ensures r.Panic? <==> forall i :: 0 <= i < |line| ==> !IsDigit(line[i])
    ensures r.Ok? ==> r.value <= 99
  {
    match FirstDigit(line)
    case None => Panic
    case Some(i) =>
      var j := match LastDigit(line[i + 1..]) case Some(k) => i + 1 + k case None => i;
      TwoDigits(line[i], line[j]);
      Ok(DigitsValue([line[i], line[j]]))
  }

  /** A line's value is ten times its first digit plus its last digit. */
  lemma LineValueIsFirstAndLast(line: string)
    requires LineValue(line).Ok?
    ensures exists i, j :: 0 <= i <= j < |line| && IsDigit(line[i]) && IsDigit(line[j])
              && (forall k :: 0 <= k < i ==> !IsDigit(line[k]))
              && (forall k :: j < k < |line| ==> !IsDigit(line[k]))
              && LineValue(line).value == 10 * DigitValue(line[i]) + DigitValue(line[j])
  {
    var i, j := FirstAndLast(line);
    assert 0 <= i <= j < |line| && IsDigit(line[i]) && IsDigit(line[j]);
  }

  /** The positions `LineValue` reads its two digits from. */
  lemma FirstAndLast(line: string) returns (i: nat, j: nat)
    requires LineValue(line).Ok?
    ensures i <= j < |line| && IsDigit(line[i]) && IsDigit(line[j])
    ensures forall k :: 0 <= k < i ==> !IsDigit(line[k])
    ensures forall k :: j < k < |line| ==> !IsDigit(line[k])
    ensures LineValue(line).value == 10 * DigitValue(line[i]) + DigitValue(line[j])
  {
    i := FirstDigit(line).value;
    var rest := line[i + 1..];
    j := match LastDigit(rest) case Some(k) => i + 1 + k case None => i;
    forall k | j < k < |line|
      ensures !IsDigit(line[k])
    {
      assert line[k] == rest[k - i - 1];
    }
    TwoDigits(line[i], line[j]);
  }

  /** Part one: the sum of the lines' values; any line without a digit panics. */
  function PartOne(lines: seq<string>): (r: Result<nat>)
    ensures r.Ok? <==> forall i :: 0 <= i < |lines| ==> LineValue(lines[i]).Ok?
    ensures r.Ok? ==> r.value <= 99 * |lines|
  {
    if lines == [] then Ok(0)
    else
      assert forall i :: 1 <= i < |lines| ==> lines[1..][i - 1] == lines[i];
      match (LineValue(lines[0]), PartOne(lines[1..]))
      case (Ok(v), Ok(rest)) => Ok(v + rest)
      case _ => Panic
  }

  /** Conversely, the first digit at `i` and the last at `j` give the line's
      value. */
  lemma LineValueOfDigits(line: string, i: nat, j: nat)
    requires i <= j < |line| && IsDigit(line[i]) && IsDigit(line[j])
    requires forall k :: 0 <= k < i ==> !IsDigit(line[k])
    requires forall k :: j < k < |line| ==> !IsDigit(line[k])
    ensures LineValue(line).Ok? && LineValue(line).value == 10 * DigitValue(line[i]) + DigitValue(line[j])
  {
    var rest := line[i + 1..];
    assert FirstDigit(line) == Some(i);
    if i < j {
      assert rest[j - i - 1] == line[j];
      assert LastDigit(rest) == Some(j - i - 1);
    } else {
      assert LastDigit(rest) == None;
    }
    TwoDigits(line[i], line[j]);
  }

  /** Part one adds up the lines' values. */
  lemma {:induction false} PartOneSums(lines: seq<string>, values: seq<nat>)
    requires |values| == |lines|
    requires forall i :: 0 <= i < |lines| ==> LineValue(lines[i]).Ok? && LineValue(lines[i]).value == values[i]
    ensures PartOne(lines).Ok? && PartOne(lines).value == Sum(values)
  {
    if lines != [] {
      assert forall i :: 0 <= i < |lines| - 1 ==> lines[1..][i] == lines[i + 1] && values[1..][i] == values[i + 1];
      PartOneSums(lines[1..], values[1..]);
      assert LineValue(lines[0]).Ok? && LineValue(lines[0]).value == values[0];
    }
  }

  // ---------------------------------------------------------------------------
  // Part two: digits and spelled-out digits

  /** `NUMBERS[k]`: the digits `1`–`9`, then their words, in the order the
      scanner tries them. */
  function Word(k: nat): (w: string)
    requires k < 18
    ensures |w| >= 1
  {
    match k
    case 0 => "1" case 1 => "2" case 2 => "3" case 3 => "4" case 4 => "5"
    case 5 => "6" case 6 => "7" case 7 => "8" case 8 => "9"
    case 9 => "one" case 10 => "two" case 11 => "three" case 12 => "four"
    case 13 => "five" case 14 => "six" case 15 => "seven" case 16 => "eight"
    case _ => "nine"
  }

  ghost predicate IsNumber(w: string)
  {
    exists k :: 0 <= k < 18 && Word(k) == w
  }

  /** `From<&Number> for u32`: a number is worth the digit it is or spells;
      anything else is unreachable. */
  function NumberValue(word: string): (r: Result<nat>)
    ensures r.Ok? ==> 1 <= r.value <= 9 && (word == Word(r.value - 1) || word == Word(r.value + 8))
  {
    if word == "1" || word == "one" then Ok(1)
    else if word == "2" || word == "two" then Ok(2)
    else if word == "3" || word == "three" then Ok(3)
    else if word == "4" || word == "four" then Ok(4)
    else if word == "5" || word == "five" then Ok(5)
    else if word == "6" || word == "six" then Ok(6)
    else if word == "7" || word == "seven" then Ok(7)
    else if word == "8" || word == "eight" then Ok(8)
    else if word == "9" || word == "nine" then Ok(9)
    else Panic
  }

  /** Every entry of `NUMBERS` converts, a digit and its word to the same
      value; `0` and `zero` are not numbers and do not convert. */
  lemma NumberValues(k: nat)
    requires k < 18
    ensures NumberValue(Word(k)) == Ok(k % 9 + 1)
  {
    if k < 9 {
      DigitNumberValues(k);
    } else {
      WordNumberValues(k);
    }
  }

  lemma DigitNumberValues(k: nat)
    requires k < 9
    ensures NumberValue(Word(k)) == Ok(k + 1)
  {
  }

  lemma WordNumberValues(k: nat)
    requires 9 <= k < 18
    ensures NumberValue(Word(k)) == Ok(k - 8)
  {
  }

  /** Zero is not among the numbers: neither "0" nor "zero" converts. */
  lemma NoZero()
    ensures NumberValue("0").Panic? && NumberValue("zero").Panic?
  {
  }

  /** The conversion succeeds exactly on the entries of `NUMBERS`. */
  lemma NumberValueOk(word: string)
    ensures NumberValue(word).Ok? <==> IsNumber(word)
  {
    var r := NumberValue(word);
    if r.Ok? {
      assert Word(r.value - 1) == word || Word(r.value + 8) == word;
    }
    if IsNumber(word) {
      var k :| 0 <= k < 18 && Word(k) == word;
      NumberValues(k);
    }
  }

  predicate IsPrefix(p: string, s: string)
  {
    |p| <= |s| && s[..|p|] == p
  }

  /** The index of the first of `NUMBERS[k..]` that `s` starts with. */
  function MatchFrom(s: string, k: nat): (r: Option<nat>)
    requires k <= 18
    ensures r.Some? ==> k <= r.value < 18
    decreases 18 - k
  {
    if k == 18 then None
    else if IsPrefix(Word(k), s) then Some(k)
    else MatchFrom(s, k + 1)
  }

  /** The entry of `NUMBERS` the scanner finds at the start of `s`. No entry
      is a prefix of another, so only the entry named by the first two
      characters can match; `SearchFindsFirstMatch` shows that this is what
      the in-order search `MatchFrom(s, 0)` finds. */
  function FirstMatch(s: string): (r: Option<nat>)
    ensures r.Some? ==> r.value < 18 && IsPrefix(Word(r.value), s)
  {
    if s == [] then None
    else
      match EntryOfKey(s[0], Second(s))
      case Some(k) => if IsPrefix(Word(k), s) then Some(k) else None
      case None => None
  }

  /** The search finds the first entry from `k` on that `s` starts with, and
      nothing when no entry from `k` on is a prefix of `s`. */
  lemma MatchFromIsFirst(s: string, k: nat)
    requires k <= 18
    ensures MatchFrom(s, k).Some? ==> IsPrefix(Word(MatchFrom(s, k).value), s)
    ensures MatchFrom(s, k).Some? ==> forall j :: k <= j < MatchFrom(s, k).value ==> !IsPrefix(Word(j), s)
    ensures MatchFrom(s, k).None? <==> forall j :: k <= j < 18 ==> !IsPrefix(Word(j), s)
  {
    MatchFromFound(s, k);
    MatchFromSkips(s, k);
    MatchFromNone(s, k);
  }

  lemma {:induction false} MatchFromFound(s: string, k: nat)
    requires k <= 18
    ensures MatchFrom(s, k).Some? ==> IsPrefix(Word(MatchFrom(s, k).value), s)
    decreases 18 - k
  {
    if k < 18 && !IsPrefix(Word(k), s) {
      MatchFromFound(s, k + 1);
    }
  }

  lemma {:induction false} MatchFromSkips(s: string, k: nat)
    requires k <= 18
    ensures MatchFrom(s, k).Some? ==> forall j :: k <= j < MatchFrom(s, k).value ==> !IsPrefix(Word(j), s)
    decreases 18 - k
  {
    if k < 18 && !IsPrefix(Word(k), s) {
      MatchFromSkips(s, k + 1);
      var m := MatchFrom(s, k + 1);
      assert MatchFrom(s, k) == m;
      if m.Some? {
        forall j | k <= j < m.value
          ensures !IsPrefix(Word(j), s)
        {
        }
      }
    }
  }

  lemma {:induction false} MatchFromNone(s: string, k: nat)
    requires k <= 18
    ensures MatchFrom(s, k).None? <==> forall j :: k <= j < 18 ==> !IsPrefix(Word(j), s)
    decreases 18 - k
  {
    if k < 18 && !IsPrefix(Word(k), s) {
      MatchFromNone(s, k + 1);
    }
  }

  // No entry of `NUMBERS` is a prefix of another: the first two characters
  // of a line decide the only entry that can match there.

  function Second(s: string): char
  {
    if |s| >= 2 then s[1] else ' '
  }

  /** The only entry that can start with `c0` followed by `c1`. */
  function EntryOfKey(c0: char, c1: char): (r: Option<nat>)
    ensures r.Some? ==> r.value < 18
  {
    if '1' <= c0 <= '9' then Some((c0 - '1') as nat)
    else if c0 == 'o' then Some(9)
    else if c0 == 't' then (if c1 == 'w' then Some(10) else Some(11))
    else if c0 == 'f' then (if c1 == 'o' then Some(12) else Some(13))
    else if c0 == 's' then (if c1 == 'i' then Some(14) else Some(15))
    else if c0 == 'e' then Some(16)
    else if c0 == 'n' then Some(17)
    else None
  }

  lemma EntryKeys(k: nat)
    requires k < 18
    ensures EntryOfKey(Word(k)[0], Second(Word(k))) == Some(k)
    ensures |Word(k)| == 1 ==> '1' <= Word(k)[0] <= '9'
  {
  }

  /** An entry that is a prefix of `s` has the key of `s`. */
  lemma PrefixHasKey(s: string, k: nat)
    requires k < 18 && IsPrefix(Word(k), s)
    ensures s != [] && EntryOfKey(s[0], Second(s)) == Some(k)
  {
    EntryKeys(k);
    var w := Word(k);
    assert s[0] == s[..|w|][0] == w[0];
    if |w| >= 2 {
      assert s[1] == s[..|w|][1] == w[1];
    }
  }

  /** Trying the entries of `NUMBERS` in order finds the entry named by the
      first two characters, if the line starts with it, and nothing else. */
  lemma SearchFindsFirstMatch(s: string)
    ensures MatchFrom(s, 0) == FirstMatch(s)
  {
    MatchFromIsFirst(s, 0);
    var m := MatchFrom(s, 0);
    if m.Some? {
      PrefixHasKey(s, m.value);
    }
  }

  /** Whatever entry `s` starts with is the one the scanner finds, so the
      order in which it tries them does not matter. */
  lemma MatchIsUnique(s: string, k: nat)
    requires k < 18 && IsPrefix(Word(k), s)
    ensures FirstMatch(s) == Some(k)
  {
    PrefixHasKey(s, k);
  }

  /** The numbers the part-two scanner recognises in `s`, in order: a match
      of length `L` resumes the scan `L` characters on, a position without a
      match resumes it one character on. */
  function Recognised(s: string): (r: seq<string>)
    decreases |s|
  {
    if s == [] then []
    else
      match FirstMatch(s)
      case Some(k) => [Word(k)] + Recognised(s[|Word(k)|..])
      case None => Recognised(s[1..])
  }

  /** Everything recognised is an entry of `NUMBERS`, so it converts. */
  lemma {:induction false} RecognisedConvert(s: string, i: nat)
    requires i < |Recognised(s)|
    ensures NumberValue(Recognised(s)[i]).Ok?
    decreases |s|
  {
    match FirstMatch(s)
    case Some(k) =>
      MatchStep(s, Word(k));
      if i == 0 {
        NumberValues(k);
      } else {
        RecognisedConvert(s[|Word(k)|..], i - 1);
      }
    case None =>
      RecognisedConvert(s[1..], i);
  }

  /** The inner loop of `part_two`'s scanner: try the entries of `NUMBERS`
      in order at the current position and stop at the first that matches. */
  method TryNumbers(rest: string) returns (m: Option<nat>)
    ensures m == FirstMatch(rest)
  {
    SearchFindsFirstMatch(rest);
    for k := 0 to 18
      invariant MatchFrom(rest, k) == MatchFrom(rest, 0)
    {
      if IsPrefix(Word(k), rest) {
        return Some(k);
      }
    }
    return None;
  }

  /** The scanning loop of `part_two` for one line: a match is pushed and the
      index jumps past it (by `len - 1` and then by the loop's own `1`); a
      position without a match moves the index by that `1` alone. */
  method ScanLine(line: string) returns (numbers: seq<string>)
    ensures numbers == Recognised(line)
  {
    var index := 0;
    numbers := [];
    while index < |line|
      invariant index <= |line|
      invariant numbers + Recognised(line[index..]) == Recognised(line)
    {
      var rest := line[index..];
      var m := TryNumbers(rest);
      if m.Some? {
        // the slice `line[index..index + num.len()]` that is pushed is `num`
        var num := Word(m.value);
        assert Recognised(rest) == [num] + Recognised(rest[|num|..]);
        numbers := numbers + [num];
        assert line[index + |num|..] == rest[|num|..];
        // `index += num.len() - 1`, then `index += 1`
        index := index + |num|;
      } else {
        assert Recognised(rest) == Recognised(rest[1..]);
        assert line[index + 1..] == rest[1..];
        index := index + 1;
      }
    }
  }

  /** A scan step at a position where the entry `k` is written. */
  lemma Found(s: string, k: nat)
    requires k < 18 && IsPrefix(Word(k), s)
    ensures Recognised(s) == [Word(k)] + Recognised(s[|Word(k)|..])
  {
    MatchIsUnique(s, k);
  }

  /** A scan step at a position where the only candidate entry is not written. */
  lemma Skipped(s: string)
    requires s != []
    requires EntryOfKey(s[0], Second(s)).None? || !IsPrefix(Word(EntryOfKey(s[0], Second(s)).value), s)
    ensures Recognised(s) == Recognised(s[1..])
  {
  }

  /** Where the recognised numbers start in `s`. */
  function Starts(s: string): (r: seq<nat>)
    decreases |s|
  {
    if s == [] then []
    else
      match FirstMatch(s)
      case Some(k) => [0] + Shift(Starts(s[|Word(k)|..]), |Word(k)|)
      case None => Shift(Starts(s[1..]), 1)
  }

  function Shift(xs: seq<nat>, d: nat): (r: seq<nat>)
    ensures |r| == |xs| && forall i :: 0 <= i < |xs| ==> r[i] == xs[i] + d
  {
    seq(|xs|, i requires 0 <= i < |xs| => xs[i] + d)
  }

  lemma {:induction false} StartsLength(s: string)
    ensures |Starts(s)| == |Recognised(s)|
    decreases |s|
  {
    if s != [] {
      match FirstMatch(s)
      case Some(i) =>
        StartsLength(s[|Word(i)|..]);
      case None =>
        StartsLength(s[1..]);
    }
  }

  /** Every recognised number is written in the line where it was found. */
  lemma {:induction false} RecognisedOccurs(s: string, k: nat)
    requires k < |Recognised(s)|
    ensures |Starts(s)| == |Recognised(s)|
    ensures Starts(s)[k] + |Recognised(s)[k]| <= |s|
    ensures s[Starts(s)[k]..Starts(s)[k] + |Recognised(s)[k]|] == Recognised(s)[k]
    decreases |s|, 2
  {
    StartsLength(s);
    if FirstMatch(s).Some? && k == 0 {
      OccursFirst(s);
    } else if FirstMatch(s).Some? {
      OccursAfterMatch(s, k);
    } else {
      OccursAfterSkip(s, k);
    }
  }

  lemma {:induction false} OccursAfterMatch(s: string, k: nat)
    requires 0 < k < |Recognised(s)| && FirstMatch(s).Some?
    ensures |Starts(s)| == |Recognised(s)|
    ensures Starts(s)[k] + |Recognised(s)[k]| <= |s|
    ensures s[Starts(s)[k]..Starts(s)[k] + |Recognised(s)[k]|] == Recognised(s)[k]
    decreases |s|, 1
  {
    var w := Word(FirstMatch(s).value);
    MatchStep(s, w);
    OccursAfterPrefix(s, w, k);
  }

  lemma {:induction false} OccursAfterPrefix(s: string, w: string, k: nat)
    requires 1 <= |w| <= |s|
    requires Recognised(s) == [w] + Recognised(s[|w|..])
    requires Starts(s) == [0] + Shift(Starts(s[|w|..]), |w|)
    requires 0 < k < |Recognised(s)|
    ensures |Starts(s)| == |Recognised(s)|
    ensures Starts(s)[k] + |Recognised(s)[k]| <= |s|
    ensures s[Starts(s)[k]..Starts(s)[k] + |Recognised(s)[k]|] == Recognised(s)[k]
    decreases |s|, 0
  {
    var t := s[|w|..];
    var rt, st := Recognised(t), Starts(t);
    assert |st| == |rt| && st[k - 1] + |rt[k - 1]| <= |t| && t[st[k - 1]..st[k - 1] + |rt[k - 1]|] == rt[k - 1] by {
      StartsLength(t);
      RecognisedOccurs(t, k - 1);
    }
    OccursInSuffix(s, w, Recognised(s), rt, Starts(s), st, k);
  }

  /** An occurrence in what follows a match of `w` is an occurrence in `s`. */
  lemma OccursInSuffix(s: string, w: string, rs: seq<string>, rt: seq<string>,
                       ss: seq<nat>, st: seq<nat>, k: nat)
    requires |w| <= |s| && rs == [w] + rt && ss == [0] + Shift(st, |w|)
    requires 0 < k < |rs| && |st| == |rt|
    requires st[k - 1] + |rt[k - 1]| <= |s| - |w|
    requires s[|w|..][st[k - 1]..st[k - 1] + |rt[k - 1]|] == rt[k - 1]
    ensures |ss| == |rs| && ss[k] + |rs[k]| <= |s|
    ensures s[ss[k]..ss[k] + |rs[k]|] == rs[k]
  {
    assert rs[k] == rt[k - 1] && ss[k] == |w| + st[k - 1];
    SliceOfSuffix(s, |w|, st[k - 1], rt[k - 1]);
  }

  lemma OccursFirst(s: string)
    requires 0 < |Recognised(s)| && FirstMatch(s).Some?
    ensures |Starts(s)| == |Recognised(s)|
    ensures Starts(s)[0] + |Recognised(s)[0]| <= |s|
    ensures s[Starts(s)[0]..Starts(s)[0] + |Recognised(s)[0]|] == Recognised(s)[0]
  {
    var w := Word(FirstMatch(s).value);
    MatchStep(s, w);
    StartsLength(s[|w|..]);
    assert s[0..|w|] == w;
  }

  /** One step of the scan and of the start positions where an entry matches. */
  lemma MatchStep(s: string, w: string)
    requires FirstMatch(s).Some? && w == Word(FirstMatch(s).value)
    ensures |w| <= |s| && IsPrefix(w, s)
    ensures Recognised(s) == [w] + Recognised(s[|w|..])
    ensures Starts(s) == [0] + Shift(Starts(s[|w|..]), |w|)
  {
  }

  lemma {:induction false} OccursAfterSkip(s: string, k: nat)
    requires k < |Recognised(s)| && FirstMatch(s).None?
    ensures |Starts(s)| == |Recognised(s)|
    ensures Starts(s)[k] + |Recognised(s)[k]| <= |s|
    ensures s[Starts(s)[k]..Starts(s)[k] + |Recognised(s)[k]|] == Recognised(s)[k]
    decreases |s|, 1
  {
    StartsLength(s);
    var t := s[1..];
    assert Recognised(s) == Recognised(t);
    assert Starts(s) == Shift(Starts(t), 1);
    RecognisedOccurs(t, k);
    SliceOfSuffix(s, 1, Starts(t)[k], Recognised(t)[k]);
  }

  /** What is written at `p` in `s[d..]` is written at `d + p` in `s`. */
  lemma SliceOfSuffix(s: string, d: nat, p: nat, v: string)
    requires d <= |s| && p + |v| <= |s| - d && s[d..][p..p + |v|] == v
    ensures s[d + p..d + p + |v|] == v
  {
    assert s[d + p..d + p + |v|] == s[d..][p..p + |v|];
  }

  /** Each recognised number starts after the previous one ends: the scan
      resumes after a whole match, so matches never overlap. */
  lemma {:induction false} RecognisedDisjoint(s: string, k: nat)
    requires k + 1 < |Recognised(s)|
    ensures |Starts(s)| == |Recognised(s)|
    ensures Starts(s)[k] + |Recognised(s)[k]| <= Starts(s)[k + 1]
    decreases |s|
  {
    StartsLength(s);
    match FirstMatch(s)
    case Some(i) =>
      var w := Word(i);
      var t := s[|w|..];
      assert Recognised(s) == [w] + Recognised(t);
      assert Starts(s) == [0] + Shift(Starts(t), |w|);
      StartsLength(t);
      if k > 0 {
        RecognisedDisjoint(t, k - 1);
      }
    case None =>
      var t := s[1..];
      assert Recognised(s) == Recognised(t);
      assert Starts(s) == Shift(Starts(t), 1);
      RecognisedDisjoint(t, k);
  }

  /** The line's value in part two from the recognised numbers: first times
      ten plus last (the first again when there is only one); no number
      panics (`expect`). */
  function LineValueTwo(line: string): (r: Result<nat>)
    ensures r.Panic? <==> Recognised(line) == []
    ensures r.Ok? ==> 11 <= r.value <= 99
    ensures r.Ok? ==> var first, last := NumberValue(Recognised(line)[0]), NumberValue(Recognised(line)[|Recognised(line)| - 1]);
                      first.Ok? && last.Ok? && r.value == 10 * first.value + last.value
  {
    var ns := Recognised(line);
    if ns == [] then Panic
    else
      RecognisedConvert(line, 0);
      RecognisedConvert(line, |ns| - 1);
      var first, last := NumberValue(ns[0]), NumberValue(ns[|ns| - 1]);
      Ok(first.value * 10 + last.value)
  }

  /** One line of `part_two`: scan, then combine the first and last number. */
  method CalibrateLine(line: string) returns (r: Result<nat>)
    ensures r == LineValueTwo(line)
  {
    var numbers := ScanLine(line);
    if numbers == [] {
      return Panic;
    }
    RecognisedConvert(line, 0);
    RecognisedConvert(line, |numbers| - 1);
    var first := NumberValue(numbers[0]);
    var second := NumberValue(numbers[|numbers| - 1]);
    r := Ok(first.value * 10 + second.value);
    assert LineValueTwo(line).Ok? && LineValueTwo(line).value == r.value;
  }

  /** Part two: the sum of the lines' values; a line without a number panics. */
  function PartTwo(lines: seq<string>): (r: Result<nat>)
    ensures r.Ok? <==> forall i :: 0 <= i < |lines| ==> Recognised(lines[i]) != []
    ensures r.Ok? ==> r.value <= 99 * |lines|
  {
    if lines == [] then Ok(0)
    else
      assert forall i :: 1 <= i < |lines| ==> lines[1..][i - 1] == lines[i];
      match (LineValueTwo(lines[0]), PartTwo(lines[1..]))
      case (Ok(v), Ok(rest)) => Ok(v + rest)
      case _ => Panic
  }

  /** Part two adds up the lines' values. */
  lemma {:induction false} PartTwoSums(lines: seq<string>, values: seq<nat>)
    requires |values| == |lines|
    requires forall i :: 0 <= i < |lines| ==> LineValueTwo(lines[i]).Ok? && LineValueTwo(lines[i]).value == values[i]
    ensures PartTwo(lines).Ok? && PartTwo(lines).value == Sum(values)
  {
    if lines != [] {
      assert forall i :: 0 <= i < |lines| - 1 ==> lines[1..][i] == lines[i + 1] && values[1..][i] == values[i + 1];
      PartTwoSums(lines[1..], values[1..]);
      assert LineValueTwo(lines[0]).Ok? && LineValueTwo(lines[0]).value == values[0];
    }
  }
}

module TrebuchetExample {
  import opened Common
  import opened Trebuchet

  // ---------------------------------------------------------------------------
  // Part one

  lemma FirstLineOne(l: string)
    requires l == "1abc2"
    ensures LineValue(l).Ok? && LineValue(l).value == 12
  {
    LineValueOfDigits(l, 0, 4);
  }

  lemma SecondLineOne(l: string)
    requires l == "pqr3stu8vwx"
    ensures LineValue(l).Ok? && LineValue(l).value == 38
  {
    LineValueOfDigits(l, 3, 7);
  }

  lemma ThirdLineOne(l: string)
    requires l == "a1b2c3d4e5f"
    ensures LineValue(l).Ok? && LineValue(l).value == 15
  {
    LineValueOfDigits(l, 1, 9);
  }

  lemma FourthLineOne(l: string)
    requires l == "treb7uchet"
    ensures LineValue(l).Ok? && LineValue(l).value == 77
  {
    LineValueOfDigits(l, 4, 4);
  }

  lemma FourLines(lines: seq<string>)
    requires |lines| == 4
    requires LineValue(lines[0]).Ok? && LineValue(lines[1]).Ok? && LineValue(lines[2]).Ok? && LineValue(lines[3]).Ok?
    ensures PartOne(lines).Ok?
    ensures PartOne(lines).value == LineValue(lines[0]).value + LineValue(lines[1]).value
                                    + LineValue(lines[2]).value + LineValue(lines[3]).value
  {
    var t1 := lines[1..];
    var t2 := t1[1..];
    var t3 := t2[1..];
    assert t1[0] == lines[1] && t2[0] == lines[2] && t3[0] == lines[3] && t3[1..] == [];
    assert PartOne(t3[1..]) == Ok(0);
    assert PartOne(t3).value == LineValue(lines[3]).value;
    assert PartOne(t2).value == LineValue(lines[2]).value + PartOne(t3).value;
    assert PartOne(t1).value == LineValue(lines[1]).value + PartOne(t2).value;
  }

  /** The puzzle's example for part one sums to 142. */
  lemma ExamplePartOne(lines: seq<string>)
    requires |lines| == 4
    requires lines[0] == "1abc2" && lines[1] == "pqr3stu8vwx" && lines[2] == "a1b2c3d4e5f"
    requires lines[3] == "treb7uchet"
    ensures PartOne(lines).Ok? && PartOne(lines).value == 142
  {
    FirstLineOne(lines[0]);
    SecondLineOne(lines[1]);
    ThirdLineOne(lines[2]);
    FourthLineOne(lines[3]);
    FourLines(lines);
  }

  // ---------------------------------------------------------------------------
  // Part two

  /** One scan step where the entry `k` is written at index `i`. */
  lemma FoundAt(line: string, i: nat, k: nat, j: nat)
    requires i <= |line| && k < 18 && IsPrefix(Word(k), line[i..]) && j == i + |Word(k)|
    ensures j <= |line|
    ensures Recognised(line[i..]) == [Word(k)] + Recognised(line[j..])
  {
    Found(line[i..], k);
    assert line[i..][|Word(k)|..] == line[j..];
  }

  /** One scan step where nothing is written at index `i`. */
  lemma SkippedAt(line: string, i: nat)
    requires i < |line|
    requires EntryOfKey(line[i], Second(line[i..])).None?
             || !IsPrefix(Word(EntryOfKey(line[i], Second(line[i..])).value), line[i..])
    ensures Recognised(line[i..]) == Recognised(line[i + 1..])
  {
    Skipped(line[i..]);
    assert line[i..][1..] == line[i + 1..];
  }

  /** The line's value from the entries of `NUMBERS` recognised first and
      last in it. */
  lemma ValueOf(line: string, words: seq<string>, first: nat, last: nat, value: nat)
    requires first < 18 && last < 18
    requires Recognised(line) == words && |words| > 0
    requires words[0] == Word(first) && words[|words| - 1] == Word(last)
    requires value == 10 * (first % 9 + 1) + last % 9 + 1
    ensures LineValueTwo(line).Ok? && LineValueTwo(line).value == value
  {
    NumberValues(first);
    NumberValues(last);
  }

  /** The positions of "eightwo" where the scan moves on by one character. */
  lemma OverlapSkips(s: string, i: nat)
    requires s == "eightwo"
    requires i in {5, 6}
    ensures Recognised(s[i..]) == Recognised(s[i + 1..])
  {
    SkippedAt(s, i);
  }

  lemma OverlapNotRecognisedFrom5(s: string)
    requires s == "eightwo"
    ensures Recognised(s[5..]) == []
  {
    assert s[7..] == [];
    calc {
      Recognised(s[5..]);
      { OverlapSkips(s, 5); }
      Recognised(s[6..]);
      { OverlapSkips(s, 6); }
      Recognised(s[7..]);
      [];
    }
  }

  /** A word that overlaps the match before it is not recognised: "eightwo"
      holds "two" from index 4, but the scan resumes after "eight". */
  lemma OverlapNotRecognised(s: string)
    requires s == "eightwo"
    ensures s[4..] == Word(10)
    ensures Recognised(s) == [Word(16)]
  {
    assert s[0..] == s;
    calc {
      Recognised(s[0..]);
      { FoundAt(s, 0, 16, 5); }
      [Word(16)] + Recognised(s[5..]);
      { OverlapNotRecognisedFrom5(s); }
      [Word(16)];
    }
  }

  lemma Scan1From3(l: string)
    requires l == "two1nine"
    ensures Recognised(l[3..]) == [Word(0), Word(17)]
  {
    assert l[8..] == [];
    calc {
      Recognised(l[3..]);
      { FoundAt(l, 3, 0, 4); }
      [Word(0)] + Recognised(l[4..]);
      { FoundAt(l, 4, 17, 8); }
      [Word(0)] + [Word(17)] + Recognised(l[8..]);
      [Word(0), Word(17)];
    }
  }

  lemma Scan1(l: string)
    requires l == "two1nine"
    ensures Recognised(l) == [Word(10), Word(0), Word(17)]
  {
    assert l[0..] == l;
    calc {
      Recognised(l[0..]);
      { FoundAt(l, 0, 10, 3); }
      [Word(10)] + Recognised(l[3..]);
      { Scan1From3(l); }
      [Word(10), Word(0), Word(17)];
    }
  }

  lemma Line1(l: string)
    requires l == "two1nine"
    ensures LineValueTwo(l).Ok? && LineValueTwo(l).value == 29
  {
    Scan1(l);
    ValueOf(l, [Word(10), Word(0), Word(17)], 10, 17, 29);
  }

  /** The positions of "eightwothree" where the scan moves on by one character. */
  lemma Skips2(l: string, i: nat)
    requires l == "eightwothree"
    requires i in {5, 6}
    ensures Recognised(l[i..]) == Recognised(l[i + 1..])
  {
    SkippedAt(l, i);
  }

  lemma Scan2From7(l: string)
    requires l == "eightwothree"
    ensures Recognised(l[7..]) == [Word(11)]
  {
    assert l[12..] == [];
    calc {
      Recognised(l[7..]);
      { FoundAt(l, 7, 11, 12); }
      [Word(11)] + Recognised(l[12..]);
      [Word(11)];
    }
  }

  lemma Scan2From5(l: string)
    requires l == "eightwothree"
    ensures Recognised(l[5..]) == [Word(11)]
  {
    calc {
      Recognised(l[5..]);
      { Skips2(l, 5); }
      Recognised(l[6..]);
      { Skips2(l, 6); }
      Recognised(l[7..]);
      { Scan2From7(l); }
      [Word(11)];
    }
  }

  /** "eightwothree": the "two" overlapping "eight" is skipped. */
  lemma Scan2(l: string)
    requires l == "eightwothree"
    ensures Recognised(l) == [Word(16), Word(11)]
  {
    assert l[0..] == l;
    calc {
      Recognised(l[0..]);
      { FoundAt(l, 0, 16, 5); }
      [Word(16)] + Recognised(l[5..]);
      { Scan2From5(l); }
      [Word(16), Word(11)];
    }
  }

  lemma Line2(l: string)
    requires l == "eightwothree"
    ensures LineValueTwo(l).Ok? && LineValueTwo(l).value == 83
  {
    Scan2(l);
    ValueOf(l, [Word(16), Word(11)], 16, 11, 83);
  }

  /** The positions of "abcone2threexyz" where the scan moves on by one character. */
  lemma Skips3(l: string, i: nat)
    requires l == "abcone2threexyz"
    requires i in {0, 1, 2, 12, 13, 14}
    ensures Recognised(l[i..]) == Recognised(l[i + 1..])
  {
    SkippedAt(l, i);
  }

  lemma Scan3From13(l: string)
    requires l == "abcone2threexyz"
    ensures Recognised(l[13..]) == []
  {
    assert l[15..] == [];
    calc {
      Recognised(l[13..]);
      { Skips3(l, 13); }
      Recognised(l[14..]);
      { Skips3(l, 14); }
      Recognised(l[15..]);
      [];
    }
  }

  lemma Scan3From7(l: string)
    requires l == "abcone2threexyz"
    ensures Recognised(l[7..]) == [Word(11)]
  {
    calc {
      Recognised(l[7..]);
      { FoundAt(l, 7, 11, 12); }
      [Word(11)] + Recognised(l[12..]);
      { Skips3(l, 12); }
      [Word(11)] + Recognised(l[13..]);
      { Scan3From13(l); }
      [Word(11)];
    }
  }

  lemma Scan3From6(l: string)
    requires l == "abcone2threexyz"
    ensures Recognised(l[6..]) == [Word(1), Word(11)]
  {
    calc {
      Recognised(l[6..]);
      { FoundAt(l, 6, 1, 7); }
      [Word(1)] + Recognised(l[7..]);
      { Scan3From7(l); }
      [Word(1), Word(11)];
    }
  }

  lemma Scan3From3(l: string)
    requires l == "abcone2threexyz"
    ensures Recognised(l[3..]) == [Word(9), Word(1), Word(11)]
  {
    calc {
      Recognised(l[3..]);
      { FoundAt(l, 3, 9, 6); }
      [Word(9)] + Recognised(l[6..]);
      { Scan3From6(l); }
      [Word(9), Word(1), Word(11)];
    }
  }

  lemma Scan3From1(l: string)
    requires l == "abcone2threexyz"
    ensures Recognised(l[1..]) == [Word(9), Word(1), Word(11)]
  {
    calc {
      Recognised(l[1..]);
      { Skips3(l, 1); }
      Recognised(l[2..]);
      { Skips3(l, 2); }
      Recognised(l[3..]);
      { Scan3From3(l); }
      [Word(9), Word(1), Word(11)];
    }
  }

  lemma Scan3(l: string)
    requires l == "abcone2threexyz"
    ensures Recognised(l) == [Word(9), Word(1), Word(11)]
  {
    Skips3(l, 0);
    Scan3From1(l);
    assert l[0..] == l;
  }

  lemma Line3(l: string)
    requires l == "abcone2threexyz"
    ensures LineValueTwo(l).Ok? && LineValueTwo(l).value == 13
  {
    Scan3(l);
    ValueOf(l, [Word(9), Word(1), Word(11)], 9, 11, 13);
  }

  /** The positions of "xtwone3four" where the scan moves on by one character. */
  lemma Skips4(l: string, i: nat)
    requires l == "xtwone3four"
    requires i in {0, 4, 5}
    ensures Recognised(l[i..]) == Recognised(l[i + 1..])
  {
    SkippedAt(l, i);
  }

  lemma Scan4From7(l: string)
    requires l == "xtwone3four"
    ensures Recognised(l[7..]) == [Word(12)]
  {
    assert l[11..] == [];
    calc {
      Recognised(l[7..]);
      { FoundAt(l, 7, 12, 11); }
      [Word(12)] + Recognised(l[11..]);
      [Word(12)];
    }
  }

  lemma Scan4From5(l: string)
    requires l == "xtwone3four"
    ensures Recognised(l[5..]) == [Word(2), Word(12)]
  {
    calc {
      Recognised(l[5..]);
      { Skips4(l, 5); }
      Recognised(l[6..]);
      { FoundAt(l, 6, 2, 7); }
      [Word(2)] + Recognised(l[7..]);
      { Scan4From7(l); }
      [Word(2), Word(12)];
    }
  }

  lemma Scan4From1(l: string)
    requires l == "xtwone3four"
    ensures Recognised(l[1..]) == [Word(10), Word(2), Word(12)]
  {
    calc {
      Recognised(l[1..]);
      { FoundAt(l, 1, 10, 4); }
      [Word(10)] + Recognised(l[4..]);
      { Skips4(l, 4); }
      [Word(10)] + Recognised(l[5..]);
      { Scan4From5(l); }
      [Word(10), Word(2), Word(12)];
    }
  }

  /** "xtwone3four": the "one" overlapping "two" is skipped. */
  lemma Scan4(l: string)
    requires l == "xtwone3four"
    ensures Recognised(l) == [Word(10), Word(2), Word(12)]
  {
    Skips4(l, 0);
    Scan4From1(l);
    assert l[0..] == l;
  }

  lemma Line4(l: string)
    requires l == "xtwone3four"
    ensures LineValueTwo(l).Ok? && LineValueTwo(l).value == 24
  {
    Scan4(l);
    ValueOf(l, [Word(10), Word(2), Word(12)], 10, 12, 24);
  }

  lemma Scan5From10(l: string)
    requires l == "4nineeightseven2"
    ensures Recognised(l[10..]) == [Word(15), Word(1)]
  {
    assert l[16..] == [];
    calc {
      Recognised(l[10..]);
      { FoundAt(l, 10, 15, 15); }
      [Word(15)] + Recognised(l[15..]);
      { FoundAt(l, 15, 1, 16); }
      [Word(15)] + [Word(1)] + Recognised(l[16..]);
      [Word(15), Word(1)];
    }
  }

  lemma Scan5From1(l: string)
    requires l == "4nineeightseven2"
    ensures Recognised(l[1..]) == [Word(17), Word(16), Word(15), Word(1)]
  {
    calc {
      Recognised(l[1..]);
      { FoundAt(l, 1, 17, 5); }
      [Word(17)] + Recognised(l[5..]);
      { FoundAt(l, 5, 16, 10); }
      [Word(17)] + [Word(16)] + Recognised(l[10..]);
      { Scan5From10(l); }
      [Word(17), Word(16), Word(15), Word(1)];
    }
  }

  lemma Scan5(l: string)
    requires l == "4nineeightseven2"
    ensures Recognised(l) == [Word(3), Word(17), Word(16), Word(15), Word(1)]
  {
    assert l[0..] == l;
    calc {
      Recognised(l[0..]);
      { FoundAt(l, 0, 3, 1); }
      [Word(3)] + Recognised(l[1..]);
      { Scan5From1(l); }
      [Word(3), Word(17), Word(16), Word(15), Word(1)];
    }
  }

  lemma Line5(l: string)
    requires l == "4nineeightseven2"
    ensures LineValueTwo(l).Ok? && LineValueTwo(l).value == 42
  {
    Scan5(l);
    ValueOf(l, [Word(3), Word(17), Word(16), Word(15), Word(1)], 3, 1, 42);
  }

  /** The positions of "zoneight234" where the scan moves on by one character. */
  lemma Skips6(l: string, i: nat)
    requires l == "zoneight234"
    requires i in {0, 4, 5, 6, 7}
    ensures Recognised(l[i..]) == Recognised(l[i + 1..])
  {
    SkippedAt(l, i);
  }

  lemma Scan6From9(l: string)
    requires l == "zoneight234"
    ensures Recognised(l[9..]) == [Word(2), Word(3)]
  {
    assert l[11..] == [];
    calc {
      Recognised(l[9..]);
      { FoundAt(l, 9, 2, 10); }
      [Word(2)] + Recognised(l[10..]);
      { FoundAt(l, 10, 3, 11); }
      [Word(2)] + [Word(3)] + Recognised(l[11..]);
      [Word(2), Word(3)];
    }
  }

  lemma Scan6From7(l: string)
    requires l == "zoneight234"
    ensures Recognised(l[7..]) == [Word(1), Word(2), Word(3)]
  {
    calc {
      Recognised(l[7..]);
      { Skips6(l, 7); }
      Recognised(l[8..]);
      { FoundAt(l, 8, 1, 9); }
      [Word(1)] + Recognised(l[9..]);
      { Scan6From9(l); }
      [Word(1), Word(2), Word(3)];
    }
  }

  lemma Scan6From5(l: string)
    requires l == "zoneight234"
    ensures Recognised(l[5..]) == [Word(1), Word(2), Word(3)]
  {
    calc {
      Recognised(l[5..]);
      { Skips6(l, 5); }
      Recognised(l[6..]);
      { Skips6(l, 6); }
      Recognised(l[7..]);
      { Scan6From7(l); }
      [Word(1), Word(2), Word(3)];
    }
  }

  lemma Scan6From1(l: string)
    requires l == "zoneight234"
    ensures Recognised(l[1..]) == [Word(9), Word(1), Word(2), Word(3)]
  {
    calc {
      Recognised(l[1..]);
      { FoundAt(l, 1, 9, 4); }
      [Word(9)] + Recognised(l[4..]);
      { Skips6(l, 4); }
      [Word(9)] + Recognised(l[5..]);
      { Scan6From5(l); }
      [Word(9), Word(1), Word(2), Word(3)];
    }
  }

  /** "zoneight234": the "eight" overlapping "one" is skipped. */
  lemma Scan6(l: string)
    requires l == "zoneight234"
    ensures Recognised(l) == [Word(9), Word(1), Word(2), Word(3)]
  {
    assert l[0..] == l;
    calc {
      Recognised(l[0..]);
      { Skips6(l, 0); }
      Recognised(l[1..]);
      { Scan6From1(l); }
      [Word(9), Word(1), Word(2), Word(3)];
    }
  }

  lemma Line6(l: string)
    requires l == "zoneight234"
    ensures LineValueTwo(l).Ok? && LineValueTwo(l).value == 14
  {
    Scan6(l);
    ValueOf(l, [Word(9), Word(1), Word(2), Word(3)], 9, 3, 14);
  }

  /** The positions of "7pqrstsixteen" where the scan moves on by one character. */
  lemma Skips7(l: string, i: nat)
    requires l == "7pqrstsixteen"
    requires i in {1, 2, 3, 4, 5, 9, 10, 11, 12}
    ensures Recognised(l[i..]) == Recognised(l[i + 1..])
  {
    SkippedAt(l, i);
  }

  lemma Scan7From11(l: string)
    requires l == "7pqrstsixteen"
    ensures Recognised(l[11..]) == []
  {
    assert l[13..] == [];
    calc {
      Recognised(l[11..]);
      { Skips7(l, 11); }
      Recognised(l[12..]);
      { Skips7(l, 12); }
      Recognised(l[13..]);
      [];
    }
  }

  lemma Scan7From9(l: string)
    requires l == "7pqrstsixteen"
    ensures Recognised(l[9..]) == []
  {
    calc {
      Recognised(l[9..]);
      { Skips7(l, 9); }
      Recognised(l[10..]);
      { Skips7(l, 10); }
      Recognised(l[11..]);
      { Scan7From11(l); }
      [];
    }
  }

  lemma Scan7From5(l: string)
    requires l == "7pqrstsixteen"
    ensures Recognised(l[5..]) == [Word(14)]
  {
    calc {
      Recognised(l[5..]);
      { Skips7(l, 5); }
      Recognised(l[6..]);
      { FoundAt(l, 6, 14, 9); }
      [Word(14)] + Recognised(l[9..]);
      { Scan7From9(l); }
      [Word(14)];
    }
  }

  lemma Scan7From3(l: string)
    requires l == "7pqrstsixteen"
    ensures Recognised(l[3..]) == [Word(14)]
  {
    calc {
      Recognised(l[3..]);
      { Skips7(l, 3); }
      Recognised(l[4..]);
      { Skips7(l, 4); }
      Recognised(l[5..]);
      { Scan7From5(l); }
      [Word(14)];
    }
  }

  lemma Scan7From1(l: string)
    requires l == "7pqrstsixteen"
    ensures Recognised(l[1..]) == [Word(14)]
  {
    calc {
      Recognised(l[1..]);
      { Skips7(l, 1); }
      Recognised(l[2..]);
      { Skips7(l, 2); }
      Recognised(l[3..]);
      { Scan7From3(l); }
      [Word(14)];
    }
  }

  /** "7pqrstsixteen": "teen" holds no number. */
  lemma Scan7(l: string)
    requires l == "7pqrstsixteen"
    ensures Recognised(l) == [Word(6), Word(14)]
  {
    assert l[0..] == l;
    calc {
      Recognised(l[0..]);
      { FoundAt(l, 0, 6, 1); }
      [Word(6)] + Recognised(l[1..]);
      { Scan7From1(l); }
      [Word(6), Word(14)];
    }
  }

  lemma Line7(l: string)
    requires l == "7pqrstsixteen"
    ensures LineValueTwo(l).Ok? && LineValueTwo(l).value == 76
  {
    Scan7(l);
    ValueOf(l, [Word(6), Word(14)], 6, 14, 76);
  }

  lemma SevenLines(lines: seq<string>)
    requires |lines| == 7
    requires LineValueTwo(lines[0]).Ok? && LineValueTwo(lines[1]).Ok? && LineValueTwo(lines[2]).Ok?
    requires LineValueTwo(lines[3]).Ok? && LineValueTwo(lines[4]).Ok? && LineValueTwo(lines[5]).Ok?
    requires LineValueTwo(lines[6]).Ok?
    ensures PartTwo(lines).Ok?
    ensures PartTwo(lines).value == LineValueTwo(lines[0]).value + LineValueTwo(lines[1]).value
                                    + LineValueTwo(lines[2]).value + LineValueTwo(lines[3]).value
                                    + LineValueTwo(lines[4]).value + LineValueTwo(lines[5]).value
                                    + LineValueTwo(lines[6]).value
  {
    var t1 := lines[1..];
    var t2 := t1[1..];
    var t3 := t2[1..];
    var t4 := t3[1..];
    var t5 := t4[1..];
    var t6 := t5[1..];
    assert t1[0] == lines[1] && t2[0] == lines[2] && t3[0] == lines[3];
    assert t4[0] == lines[4] && t5[0] == lines[5] && t6[0] == lines[6] && t6[1..] == [];
    assert PartTwo(t6[1..]) == Ok(0);
    PartTwoCons(t6);
    PartTwoCons(t5);
    PartTwoCons(t4);
    PartTwoCons(t3);
    PartTwoCons(t2);
    PartTwoCons(t1);
    PartTwoCons(lines);
  }

  lemma PartTwoCons(lines: seq<string>)
    requires lines != [] && LineValueTwo(lines[0]).Ok? && PartTwo(lines[1..]).Ok?
    ensures PartTwo(lines).Ok?
    ensures PartTwo(lines).value == LineValueTwo(lines[0]).value + PartTwo(lines[1..]).value
  {
  }

  /** The puzzle's example for part two sums to 281. */
  lemma ExamplePartTwo(lines: seq<string>)
    requires |lines| == 7
    requires lines[0] == "two1nine" && lines[1] == "eightwothree" && lines[2] == "abcone2threexyz"
    requires lines[3] == "xtwone3four" && lines[4] == "4nineeightseven2" && lines[5] == "zoneight234"
    requires lines[6] == "7pqrstsixteen"
    ensures PartTwo(lines).Ok? && PartTwo(lines).value == 281
  {
    Line1(lines[0]);
    Line2(lines[1]);
    Line3(lines[2]);
    Line4(lines[3]);
    Line5(lines[4]);
    Line6(lines[5]);
    Line7(lines[6]);
    SevenLines(lines);
  }
}
