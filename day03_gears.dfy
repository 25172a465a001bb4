/** Day 3: gear ratios. The engine schematic is a grid of characters; a part
    number is a run of digits with a symbol (anything but a digit or '.') in
    one of the cells around it, diagonals included. */
module GearRatios {
  import opened Common

  /** The schematic, one line per row (the solution's `Vec<Vec<char>>`). */
  type Grid = seq<string>

  /** A run of digits and where the solution places it: `row` is the index of
      its line and `column` the index at which `str::find` sees its digits in
      that line. */
  datatype PartNumber = PartNumber(number: string, row: nat, column: nat)

  // ---------------------------------------------------------------------------
  // Adjacency

  /** `grid.get(row).and_then(|row| row.get(column))`: cells outside the grid
      are `None` rather than an error. */
  function Cell(grid: Grid, row: nat, column: nat): Option<char>
  {
    if row < |grid| && column < |grid[row]| then Some(grid[row][column]) else None
  }

  /** Anything but an ASCII digit or '.' is a symbol. */
  predicate IsSymbol(c: char)
  {
    !IsDigit(c) && c != '.'
  }

  predicate SymbolAt(grid: Grid, row: nat, column: nat)
  {
    Cell(grid, row, column).Some? && IsSymbol(Cell(grid, row, column).value)
  }

  /** `x.checked_sub(1).unwrap_or(x)`: one less, except that 0 stays 0. */
  function Before(x: nat): nat
  {
    if x == 0 then 0 else x - 1
  }

  /** Some in-grid cell of the window `is_valid` searches holds a symbol: rows
      `Before(row) ..= row + 1`, columns `Before(column) ..= column + len`. */
  predicate Adjacent(grid: Grid, p: PartNumber)
  {
    exists row: nat, column: nat
      | Before(p.row) <= row <= p.row + 1 && Before(p.column) <= column <= p.column + |p.number|
      :: SymbolAt(grid, row, column)
  }

  /** `PartNumber::is_valid`: the window row by row, column by column, until a
      symbol turns up. */
  method IsValid(p: PartNumber, grid: Grid) returns (valid: bool)
    ensures valid <==> Adjacent(grid, p)
  {
    var row := Before(p.row);
    while row <= p.row + 1
      invariant Before(p.row) <= row <= p.row + 2
      invariant forall r: nat, c: nat ::
        Before(p.row) <= r < row && Before(p.column) <= c <= p.column + |p.number| ==> !SymbolAt(grid, r, c)
    {
      var column := Before(p.column);
      while column <= p.column + |p.number|
        invariant Before(p.column) <= column <= p.column + |p.number| + 1
        invariant forall c: nat :: Before(p.column) <= c < column ==> !SymbolAt(grid, row, c)
      {
        var cell := Cell(grid, row, column);
        if cell.Some? && IsSymbol(cell.value) {
          assert SymbolAt(grid, row, column);
          return true;
        }
        column := column + 1;
      }
      row := row + 1;
    }
    return false;
  }

  /** `needle` is written in `s` from index `i` on. */
  predicate OccursAt(s: string, needle: string, i: nat)
  {
    i + |needle| <= |s| && s[i..i + |needle|] == needle
  }

  /** A number's own digits never make it a part number: wherever it is
      written, the cells it covers hold digits, not symbols. */
  lemma OwnDigitsNeverCount(grid: Grid, p: PartNumber, c: nat)
    requires AllDigits(p.number) && p.row < |grid| && OccursAt(grid[p.row], p.number, p.column)
    requires p.column <= c < p.column + |p.number|
    ensures !SymbolAt(grid, p.row, c)
  {
    assert grid[p.row][c] == grid[p.row][p.column..p.column + |p.number|][c - p.column];
  }

  // ---------------------------------------------------------------------------
  // The digit runs of a line
  //
  // The solution walks the line with a shrinking `&str`; here the rest of the
  // line is `s[from..]`, named by the index `from` where it begins.

  /** `take_till(|c| c.is_ascii_digit())` on `s[from..]`: where the non-digits
      that lead it end, at a digit or at the end of `s`. */
  function SkipEnd(s: string, from: nat): (n: nat)
    requires from <= |s|
    ensures from <= n <= |s| && (n < |s| ==> IsDigit(s[n]))
    ensures from < n ==> !IsDigit(s[n - 1])
    decreases |s| - from
  {
    if from == |s| || IsDigit(s[from]) then from else SkipEnd(s, from + 1)
  }

  /** What `take_till` skips holds no digit. */
  lemma {:induction false} SkipEndNonDigits(s: string, from: nat)
    requires from <= |s|
    ensures forall m :: from <= m < SkipEnd(s, from) ==> !IsDigit(s[m])
    decreases |s| - from
  {
    if from < |s| && !IsDigit(s[from]) {
      SkipEndNonDigits(s, from + 1);
    }
  }

  /** `digit0` on `s[from..]`: where the digits that lead it end, at a
      non-digit or at the end of `s`. */
  function TakeEnd(s: string, from: nat): (n: nat)
    requires from <= |s|
    ensures from <= n <= |s| && (n < |s| ==> !IsDigit(s[n]))
    decreases |s| - from
  {
    if from == |s| || !IsDigit(s[from]) then from else TakeEnd(s, from + 1)
  }

  /** What `digit0` takes is all digits. */
  lemma {:induction false} TakeEndDigits(s: string, from: nat)
    requires from <= |s|
    ensures forall m :: from <= m < TakeEnd(s, from) ==> IsDigit(s[m])
    decreases |s| - from
  {
    if from < |s| && IsDigit(s[from]) {
      TakeEndDigits(s, from + 1);
    }
  }

  /** The runs `parse_line_numbers` collects from `s[from..]` on: each round
      skips non-digits and takes the digits that follow. A round that finds
      no digit has reached the end of the line and keeps nothing. */
  function RunsFrom(s: string, from: nat): seq<string>
    requires from <= |s|
    decreases |s| - from
  {
    var i := SkipEnd(s, from);
    if i == |s| then []
    else
      var j := TakeEnd(s, i);
      [s[i..j]] + RunsFrom(s, j)
  }

  /** Where the runs of `RunsFrom(s, from)` start in `s`. */
  function StartsFrom(s: string, from: nat): (r: seq<nat>)
    requires from <= |s|
    ensures |r| == |RunsFrom(s, from)|
    decreases |s| - from
  {
    var i := SkipEnd(s, from);
    if i == |s| then []
    else
      var j := TakeEnd(s, i);
      [i] + StartsFrom(s, j)
  }

  /** The runs of a whole line. */
  function DigitRuns(line: string): seq<string>
  {
    RunsFrom(line, 0)
  }

  /** `parse_line_numbers`: the loop over the line, one round at a time. */
  method LineNumbers(line: string) returns (numbers: seq<string>)
    ensures numbers == DigitRuns(line)
  {
    var from := 0;
    numbers := [];
    while from < |line|
      invariant from <= |line|
      invariant numbers + RunsFrom(line, from) == DigitRuns(line)
      decreases |line| - from
    {
      var i := SkipEnd(line, from);
      var j := TakeEnd(line, i);
      var number := line[i..j];
      assert RunsFrom(line, from) == (if i < |line| then [number] else []) + RunsFrom(line, j);
      assert number != [] <==> i < |line|;
      if number != [] {
        numbers := numbers + [number];
      }
      from := j;
    }
  }

  /** A scan can begin at `from` without splitting a run: at the start, at the
      end, or at a non-digit. Every round ends at such a place. */
  predicate Boundary(s: string, from: nat)
  {
    from <= |s| && (from == 0 || from == |s| || !IsDigit(s[from]))
  }

  /** `s` has a digit at `p`; false outside `s`. */
  predicate DigitAt(s: string, p: int)
  {
    0 <= p < |s| && IsDigit(s[p])
  }

  /** `run` is a non-empty string of digits written in `s` at `start`, and
      maximal: no digit just before it, none just after it. */
  predicate RunAt(s: string, run: string, start: nat)
  {
    run != [] && AllDigits(run) && OccursAt(s, run, start)
    && !DigitAt(s, start as int - 1) && !DigitAt(s, start + |run|)
  }

  /** Each run is a maximal run of digits of the line, written at its start. */
  lemma {:induction false} RunsAt(s: string, from: nat, k: nat)
    requires Boundary(s, from) && k < |RunsFrom(s, from)|
    ensures from <= StartsFrom(s, from)[k]
    ensures RunAt(s, RunsFrom(s, from)[k], StartsFrom(s, from)[k])
    decreases |s| - from
  {
    var i := SkipEnd(s, from);
    var j := TakeEnd(s, i);
    var runs, starts := RunsFrom(s, from), StartsFrom(s, from);
    assert runs == [s[i..j]] + RunsFrom(s, j) && starts == [i] + StartsFrom(s, j);
    if k == 0 {
      TakeEndDigits(s, i);
      FirstRun(s, from, i, j);
    } else {
      RunsAt(s, j, k - 1);
      Behind(runs, starts, RunsFrom(s, j), StartsFrom(s, j), s[i..j], i, k);
    }
  }

  /** The `k`-th entries of a run list and a start list, each one entry
      longer than another, are the other's `k - 1`-th. */
  lemma Behind(runs: seq<string>, starts: seq<nat>, runs': seq<string>, starts': seq<nat>,
               run: string, start: nat, k: nat)
    requires runs == [run] + runs' && starts == [start] + starts'
    requires 0 < k < |runs| && |starts'| == |runs'|
    ensures runs[k] == runs'[k - 1] && starts[k] == starts'[k - 1]
  {
  }

  /** The digits between a boundary's skipped non-digits and the next
      non-digit form a maximal run. */
  lemma FirstRun(s: string, from: nat, i: nat, j: nat)
    requires Boundary(s, from) && from <= i < j <= |s|
    requires from < i ==> !IsDigit(s[i - 1])
    requires forall m :: i <= m < j ==> IsDigit(s[m])
    requires j < |s| ==> !IsDigit(s[j])
    ensures RunAt(s, s[i..j], i)
  {
    assert forall m :: 0 <= m < j - i ==> s[i..j][m] == s[i + m];
    assert IsDigit(s[i]);
  }

  /** The runs come in order and apart: each ends before the next starts, with
      at least one non-digit in between. */
  lemma {:induction false} RunsOrdered(s: string, from: nat, k: nat)
    requires from <= |s| && k + 1 < |RunsFrom(s, from)|
    ensures StartsFrom(s, from)[k] + |RunsFrom(s, from)[k]| < StartsFrom(s, from)[k + 1]
    decreases |s| - from
  {
    var i := SkipEnd(s, from);
    var j := TakeEnd(s, i);
    if k == 0 {
      RunsAt(s, j, 0);
      var p := StartsFrom(s, j)[0];
      assert IsDigit(s[p]) by {
        assert s[p] == RunsFrom(s, j)[0][0];
      }
    } else {
      RunsOrdered(s, j, k - 1);
    }
  }

  /** The digits of `s`, in order. */
  function Digits(s: string): string
  {
    if s == [] then [] else (if IsDigit(s[0]) then [s[0]] else []) + Digits(s[1..])
  }

  lemma {:induction false} DigitsAppend(a: string, b: string)
    ensures Digits(a + b) == Digits(a) + Digits(b)
    decreases |a|
  {
    if a != [] {
      assert (a + b)[1..] == a[1..] + b;
      DigitsAppend(a[1..], b);
    } else {
      assert a + b == b;
    }
  }

  lemma {:induction false} DigitsOfDigits(s: string)
    requires AllDigits(s)
    ensures Digits(s) == s
    decreases |s|
  {
    if s != [] {
      DigitsOfDigits(s[1..]);
    }
  }

  lemma {:induction false} DigitsOfNonDigits(s: string)
    requires forall i :: 0 <= i < |s| ==> !IsDigit(s[i])
    ensures Digits(s) == []
    decreases |s|
  {
    if s != [] {
      DigitsOfNonDigits(s[1..]);
    }
  }

  function Concat(runs: seq<string>): string
  {
    if runs == [] then [] else runs[0] + Concat(runs[1..])
  }

  /** No digit is lost or repeated: the runs, one after the other, spell the
      digits of the rest of the line. */
  lemma {:induction false} RunsSpellDigits(s: string, from: nat)
    requires from <= |s|
    ensures Concat(RunsFrom(s, from)) == Digits(s[from..])
    decreases |s| - from
  {
    var i := SkipEnd(s, from);
    SkipEndNonDigits(s, from);
    if i == |s| {
      assert forall m :: 0 <= m < |s| - from ==> s[from..][m] == s[from + m];
      DigitsOfNonDigits(s[from..]);
    } else {
      var j := TakeEnd(s, i);
      RunsSpellDigits(s, j);
      TakeEndDigits(s, i);
      var a, b, c := s[from..i], s[i..j], s[j..];
      ThreeSlices(s, from, i, j);
      assert forall m :: 0 <= m < |a| ==> a[m] == s[from + m];
      assert forall m :: 0 <= m < |b| ==> b[m] == s[i + m];
      SpellParts(a, b, c);
      assert ([b] + RunsFrom(s, j))[1..] == RunsFrom(s, j);
    }
  }

  lemma ThreeSlices(s: string, from: nat, i: nat, j: nat)
    requires from <= i <= j <= |s|
    ensures s[from..] == s[from..i] + s[i..j] + s[j..]
  {
  }

  /** Non-digits, then digits, then the rest: the digits taken, then the
      digits of the rest. */
  lemma SpellParts(a: string, b: string, c: string)
    requires forall m :: 0 <= m < |a| ==> !IsDigit(a[m])
    requires AllDigits(b)
    ensures Digits(a + b + c) == b + Digits(c)
  {
    calc {
      Digits(a + b + c);
      { DigitsAppend(a + b, c); }
      Digits(a + b) + Digits(c);
      { DigitsAppend(a, b); }
      Digits(a) + Digits(b) + Digits(c);
      { DigitsOfNonDigits(a); DigitsOfDigits(b); }
      [] + b + Digits(c);
      b + Digits(c);
    }
  }


  // ---------------------------------------------------------------------------
  // Placing the numbers

  /** `str::find` from index `from` on: the first index where `needle` is
      written. */
  function FindFrom(s: string, needle: string, from: nat): (r: Option<nat>)
    ensures r.Some? ==> from <= r.value && OccursAt(s, needle, r.value)
    ensures forall i :: from <= i && (r.None? || i < r.value) ==> !OccursAt(s, needle, i)
    decreases |s| - from
  {
    if from + |needle| > |s| then None
    else if s[from..from + |needle|] == needle then Some(from)
    else FindFrom(s, needle, from + 1)
  }

  /** `needle` is written at `i` and nowhere before. */
  predicate FirstAt(s: string, needle: string, i: nat)
  {
    OccursAt(s, needle, i) && forall j :: 0 <= j < i ==> !OccursAt(s, needle, j)
  }

  /** Each run of a line is found in it: the `unwrap` after `find` never
      panics. */
  lemma RunsFound(line: string, k: nat)
    requires k < |DigitRuns(line)|
    ensures FindFrom(line, DigitRuns(line)[k], 0).Some?
    ensures FindFrom(line, DigitRuns(line)[k], 0).value <= StartsFrom(line, 0)[k]
  {
    RunsAt(line, 0, k);
  }

  /** The part numbers of one line, `parse_numbers`' inner `map`: its runs, in
      order, each at the column where `find` first sees its digits. */
  function RowNumbers(line: string, row: nat): (r: seq<PartNumber>)
    ensures |r| == |DigitRuns(line)|
    ensures forall k :: 0 <= k < |r| ==>
      r[k].number == DigitRuns(line)[k] && r[k].row == row && FirstAt(line, r[k].number, r[k].column)
    ensures forall k :: 0 <= k < |r| ==> r[k].number != [] && AllDigits(r[k].number)
  {
    var runs := DigitRuns(line);
    assert forall k :: 0 <= k < |runs| ==> FindFrom(line, runs[k], 0).Some? by {
      forall k | 0 <= k < |runs| ensures FindFrom(line, runs[k], 0).Some? {
        RunsFound(line, k);
      }
    }
    assert forall k :: 0 <= k < |runs| ==> runs[k] != [] && AllDigits(runs[k]) by {
      forall k | 0 <= k < |runs| ensures runs[k] != [] && AllDigits(runs[k]) {
        RunsAt(line, 0, k);
      }
    }
    seq(|runs|, k requires 0 <= k < |runs| => PartNumber(runs[k], row, FindFrom(line, runs[k], 0).value))
  }

  /** Two first occurrences are the same occurrence. */
  lemma FirstAtUnique(s: string, needle: string, i: nat, j: nat)
    requires FirstAt(s, needle, i) && FirstAt(s, needle, j)
    ensures i == j
  {
  }

  /** The placement `parse_numbers` evidently intends: each run at the column
      where it starts, which is a maximal run of digits there. */
  function PlacedRowNumbers(line: string, row: nat): (r: seq<PartNumber>)
    ensures |r| == |DigitRuns(line)|
    ensures forall k :: 0 <= k < |r| ==>
      r[k].number == DigitRuns(line)[k] && r[k].row == row && RunAt(line, r[k].number, r[k].column)
  {
    var runs, starts := DigitRuns(line), StartsFrom(line, 0);
    assert forall k :: 0 <= k < |runs| ==> RunAt(line, runs[k], starts[k]) by {
      forall k | 0 <= k < |runs| ensures RunAt(line, runs[k], starts[k]) {
        RunsAt(line, 0, k);
      }
    }
    seq(|runs|, k requires 0 <= k < |runs| => PartNumber(runs[k], row, starts[k]))
  }

  /** Both placements agree on a run whose digits are written nowhere before
      its own start. */
  lemma PlacementsAgree(line: string, row: nat, k: nat)
    requires k < |DigitRuns(line)|
    requires forall j :: 0 <= j < StartsFrom(line, 0)[k] ==> !OccursAt(line, DigitRuns(line)[k], j)
    ensures RowNumbers(line, row)[k] == PlacedRowNumbers(line, row)[k]
  {
    var a, b := RowNumbers(line, row)[k], PlacedRowNumbers(line, row)[k];
    FirstAtUnique(line, a.number, a.column, b.column);
  }

  /** The numbers of every line, `row` being the line's index. */
  predicate WellPlaced(lines: seq<string>, numbers: seq<PartNumber>)
  {
    forall k :: 0 <= k < |numbers| ==>
      numbers[k].row < |lines| && numbers[k].number != [] && AllDigits(numbers[k].number)
      && FirstAt(lines[numbers[k].row], numbers[k].number, numbers[k].column)
  }

  /** Numbers listed line after line: rows never go back. */
  predicate RowsAscend(numbers: seq<PartNumber>)
  {
    forall j, k :: 0 <= j < k < |numbers| ==> numbers[j].row <= numbers[k].row
  }

  /** The numbers of one row, in the order they are listed. */
  function OfRow(numbers: seq<PartNumber>, row: nat): (r: seq<PartNumber>)
    ensures |r| <= |numbers|
    ensures forall k :: 0 <= k < |r| ==> r[k].row == row && r[k] in numbers
  {
    if numbers == [] then []
    else
      var front := OfRow(numbers[..|numbers| - 1], row);
      var last := numbers[|numbers| - 1];
      front + (if last.row == row then [last] else [])
  }

  /** Picking a row out of two lists picks it out of each. */
  lemma {:induction false} OfRowAppend(a: seq<PartNumber>, b: seq<PartNumber>, row: nat)
    ensures OfRow(a + b, row) == OfRow(a, row) + OfRow(b, row)
    decreases |b|
  {
    if b == [] {
      assert a + b == a;
    } else {
      var b' := b[..|b| - 1];
      assert (a + b)[..|a + b| - 1] == a + b';
      OfRowAppend(a, b', row);
    }
  }

  /** A list with every number on the row is its own row. */
  lemma {:induction false} OfRowAll(numbers: seq<PartNumber>, row: nat)
    requires forall k :: 0 <= k < |numbers| ==> numbers[k].row == row
    ensures OfRow(numbers, row) == numbers
    decreases |numbers|
  {
    if numbers != [] {
      OfRowAll(numbers[..|numbers| - 1], row);
    }
  }

  /** A list with no number on the row has nothing on it. */
  lemma {:induction false} OfRowNone(numbers: seq<PartNumber>, row: nat)
    requires forall k :: 0 <= k < |numbers| ==> numbers[k].row != row
    ensures OfRow(numbers, row) == []
    decreases |numbers|
  {
    if numbers != [] {
      OfRowNone(numbers[..|numbers| - 1], row);
    }
  }

  /** Adding a last line's numbers, all on that line, below lines whose
      numbers are above it: that line's row is the new numbers, and every
      other row is as before. */
  lemma AddRow(front: seq<PartNumber>, last: seq<PartNumber>, n: nat, row: nat)
    requires forall k :: 0 <= k < |front| ==> front[k].row < n
    requires forall k :: 0 <= k < |last| ==> last[k].row == n
    ensures OfRow(front + last, row) == if row == n then last else OfRow(front, row)
  {
    OfRowAppend(front, last, row);
    if row == n {
      OfRowNone(front, row);
      OfRowAll(last, row);
    } else {
      OfRowNone(last, row);
    }
  }

  /** `parse_numbers`: the part numbers of every line, line after line. */
  function ParseNumbers(lines: seq<string>): (r: seq<PartNumber>)
    ensures WellPlaced(lines, r)
    ensures RowsAscend(r)
  {
    if lines == [] then []
    else
      var prefix := lines[..|lines| - 1];
      var front := ParseNumbers(prefix);
      var last := RowNumbers(lines[|lines| - 1], |lines| - 1);
      assert forall k :: 0 <= k < |front| ==> lines[front[k].row] == prefix[front[k].row];
      front + last
  }

  // ---------------------------------------------------------------------------
  // Part one and part two

  /** The values of the numbers next to a symbol, added up: the `filter_map`
      over `is_valid` and `parse`, then `sum`. */
  function PartSum(grid: Grid, numbers: seq<PartNumber>): (r: nat)
    requires forall k :: 0 <= k < |numbers| ==> AllDigits(numbers[k].number)
    ensures forall k :: 0 <= k < |numbers| && Adjacent(grid, numbers[k]) ==> r >= DigitsValue(numbers[k].number)
  {
    if numbers == [] then 0
    else
      assert forall k :: 0 <= k < |numbers| - 1 ==> numbers[1..][k] == numbers[k + 1];
      (if Adjacent(grid, numbers[0]) then DigitsValue(numbers[0].number) else 0)
      + PartSum(grid, numbers[1..])
  }

  /** Row `i` of the parsed numbers is exactly the numbers `RowNumbers`
      finds on line `i`, in order. */
  lemma {:induction false} ParseNumbersRows(lines: seq<string>, i: nat)
    requires i < |lines|
    ensures OfRow(ParseNumbers(lines), i) == RowNumbers(lines[i], i)
    decreases |lines|
  {
    var n := |lines| - 1;
    var prefix := lines[..n];
    AddRow(ParseNumbers(prefix), RowNumbers(lines[n], n), n, i);
    if i < n {
      ParseNumbersRows(prefix, i);
    }
  }

  /** The parts each line contributes, line by line, added up. */
  function RowSums(grid: Grid, lines: seq<string>): nat
  {
    if lines == [] then 0
    else RowSums(grid, lines[..|lines| - 1]) + PartSum(grid, RowNumbers(lines[|lines| - 1], |lines| - 1))
  }

  /** The parts of the parsed numbers are the parts of each line's numbers,
      added up over the lines. */
  lemma {:induction false} PartSumByRows(grid: Grid, lines: seq<string>)
    ensures PartSum(grid, ParseNumbers(lines)) == RowSums(grid, lines)
    decreases |lines|
  {
    if lines != [] {
      var n := |lines| - 1;
      PartSumByRows(grid, lines[..n]);
      PartSumAppend(grid, ParseNumbers(lines[..n]), RowNumbers(lines[n], n));
    }
  }

  /** `part_one`: the sum of the part numbers; the lines are the grid. */
  function PartOne(lines: seq<string>): nat
  {
    PartSum(lines, ParseNumbers(lines))
  }

  /** Part one is the parts of each line's numbers, added up over the lines. */
  lemma PartOneByRows(lines: seq<string>)
    ensures PartOne(lines) == RowSums(lines, lines)
  {
    PartSumByRows(lines, lines);
  }

  /** `parse_numbers` with every run at its own start. */
  function PlacedNumbers(lines: seq<string>): (r: seq<PartNumber>)
    ensures forall k :: 0 <= k < |r| ==>
      r[k].row < |lines| && RunAt(lines[r[k].row], r[k].number, r[k].column)
    ensures forall k :: 0 <= k < |r| ==> AllDigits(r[k].number)
    ensures RowsAscend(r)
  {
    if lines == [] then []
    else
      var prefix := lines[..|lines| - 1];
      var front := PlacedNumbers(prefix);
      var last := PlacedRowNumbers(lines[|lines| - 1], |lines| - 1);
      assert forall k :: 0 <= k < |front| ==> lines[front[k].row] == prefix[front[k].row];
      front + last
  }

  /** Row `i` of the placed numbers is exactly the numbers
      `PlacedRowNumbers` finds on line `i`, in order. */
  lemma {:induction false} PlacedNumbersRows(lines: seq<string>, i: nat)
    requires i < |lines|
    ensures OfRow(PlacedNumbers(lines), i) == PlacedRowNumbers(lines[i], i)
    decreases |lines|
  {
    var n := |lines| - 1;
    var prefix := lines[..n];
    AddRow(PlacedNumbers(prefix), PlacedRowNumbers(lines[n], n), n, i);
    if i < n {
      PlacedNumbersRows(prefix, i);
    }
  }

  /** The parts each line contributes with every run at its own start. */
  function PlacedRowSums(grid: Grid, lines: seq<string>): nat
  {
    if lines == [] then 0
    else PlacedRowSums(grid, lines[..|lines| - 1]) + PartSum(grid, PlacedRowNumbers(lines[|lines| - 1], |lines| - 1))
  }

  /** The parts of the placed numbers, added up over the lines. */
  lemma {:induction false} PlacedSumByRows(grid: Grid, lines: seq<string>)
    ensures PartSum(grid, PlacedNumbers(lines)) == PlacedRowSums(grid, lines)
    decreases |lines|
  {
    if lines != [] {
      var n := |lines| - 1;
      PlacedSumByRows(grid, lines[..n]);
      PartSumAppend(grid, PlacedNumbers(lines[..n]), PlacedRowNumbers(lines[n], n));
    }
  }

  /** The sum of the part numbers, each placed where it is written. */
  function PartOnePlaced(lines: seq<string>): nat
  {
    PartSum(lines, PlacedNumbers(lines))
  }

  /** The corrected part one, added up over the lines. */
  lemma PartOnePlacedByRows(lines: seq<string>)
    ensures PartOnePlaced(lines) == PlacedRowSums(lines, lines)
  {
    PlacedSumByRows(lines, lines);
  }

  /** Numbers that are all away from symbols add up to nothing. */
  lemma {:induction false} PartSumNoneAdjacent(grid: Grid, numbers: seq<PartNumber>)
    requires forall k :: 0 <= k < |numbers| ==> AllDigits(numbers[k].number) && !Adjacent(grid, numbers[k])
    ensures PartSum(grid, numbers) == 0
    decreases |numbers|
  {
    if numbers != [] {
      assert forall k :: 0 <= k < |numbers| - 1 ==> numbers[1..][k] == numbers[k + 1];
      PartSumNoneAdjacent(grid, numbers[1..]);
    }
  }

  /** A schematic without symbols has no part numbers. */
  lemma NoSymbolNoParts(lines: seq<string>)
    requires forall r, c :: 0 <= r < |lines| && 0 <= c < |lines[r]| ==> !IsSymbol(lines[r][c])
    ensures PartOne(lines) == 0
  {
    var numbers := ParseNumbers(lines);
    forall k | 0 <= k < |numbers| ensures !Adjacent(lines, numbers[k]) {
      forall r: nat, c: nat ensures !SymbolAt(lines, r, c) {
      }
    }
    PartSumNoneAdjacent(lines, numbers);
  }

  /** The sum over two lists of numbers is the sum over the first plus the
      sum over the second. */
  lemma {:induction false} PartSumAppend(grid: Grid, a: seq<PartNumber>, b: seq<PartNumber>)
    requires forall k :: 0 <= k < |a| ==> AllDigits(a[k].number)
    requires forall k :: 0 <= k < |b| ==> AllDigits(b[k].number)
    ensures forall k :: 0 <= k < |a + b| ==> AllDigits((a + b)[k].number)
    ensures PartSum(grid, a + b) == PartSum(grid, a) + PartSum(grid, b)
    decreases |a|
  {
    if a == [] {
      assert a + b == b;
    } else {
      assert (a + b)[1..] == a[1..] + b;
      assert forall k :: 0 <= k < |a| - 1 ==> a[1..][k] == a[k + 1];
      PartSumAppend(grid, a[1..], b);
    }
  }

  /** `part_two` is not implemented: it always answers `None`. */
  function PartTwo(lines: seq<string>): (r: Option<nat>)
    ensures r.None?
  {
    None
  }
}

/** The schematics of the solution's unit tests, and the column quirk. */
module GearRatiosExample {
  import opened Common
  import opened GearRatios

  /** No symbol in `line` from column `c` on. */
  predicate PlainFrom(line: string, c: nat)
    decreases |line| - c
  {
    c >= |line| || (!IsSymbol(line[c]) && PlainFrom(line, c + 1))
  }

  lemma {:induction false} PlainCells(line: string, c: nat)
    requires PlainFrom(line, c)
    ensures forall d :: c <= d < |line| ==> !IsSymbol(line[d])
    decreases |line| - c
  {
    if c < |line| {
      PlainCells(line, c + 1);
    }
  }

  /** `find` moves on from `q` when the line and the needle differ `m` places
      further. */
  lemma FindPast(s: string, needle: string, q: nat, m: nat)
    requires m < |needle| && q + m < |s| && s[q + m] != needle[m]
    ensures FindFrom(s, needle, q) == FindFrom(s, needle, q + 1)
  {
    if q + |needle| <= |s| {
      assert s[q..q + |needle|][m] == s[q + m];
    }
  }

  lemma OneLine(a: string)
    ensures ParseNumbers([a]) == RowNumbers(a, 0)
  {
    assert [a][..0] == [];
  }

  lemma ThreeLines(a: string, b: string, c: string)
    ensures ParseNumbers([a, b, c]) == RowNumbers(a, 0) + RowNumbers(b, 1) + RowNumbers(c, 2)
  {
    assert [a, b, c][..2] == [a, b];
    assert [a, b][..1] == [a];
    OneLine(a);
  }

  /** A line whose scan skips to its end holds no numbers. */
  lemma NoDigitLine(line: string, row: nat)
    requires SkipEnd(line, 0) == |line|
    ensures RowNumbers(line, row) == []
  {
  }

  lemma Blank(line: string, row: nat)
    requires line in {".....", ".._..", "...._"}
    ensures RowNumbers(line, row) == []
  {
    assert SkipEnd(".....", 0) == 5 && SkipEnd(".._..", 0) == 5 && SkipEnd("...._", 0) == 5;
    NoDigitLine(line, row);
  }

  lemma WideSkips()
    ensures SkipEnd(".........", 0) == 9
    ensures SkipEnd("..._.....", 0) == 9
    ensures SkipEnd("...._....", 0) == 9
  {
  }

  /** ".123." holds one number, found where it starts. */
  lemma Middle(row: nat)
    ensures RowNumbers(".123.", row) == [PartNumber("123", row, 1)]
  {
    var s := ".123.";
    assert SkipEnd(s, 0) == 1 && TakeEnd(s, 1) == 4 && SkipEnd(s, 4) == 5;
    assert s[1..4] == "123";
    assert RunsFrom(s, 4) == [];
    assert DigitRuns(s) == ["123"];
    FindPast(s, "123", 0, 0);
    assert FindFrom(s, "123", 1) == Some(1);
  }

  lemma PairRuns()
    ensures DigitRuns(".123.321.") == ["123", "321"]
  {
    var s := ".123.321.";
    assert SkipEnd(s, 0) == 1 && TakeEnd(s, 1) == 4 && SkipEnd(s, 4) == 5;
    assert TakeEnd(s, 5) == 8 && SkipEnd(s, 8) == 9;
    assert s[1..4] == "123" && s[5..8] == "321";
    assert RunsFrom(s, 8) == [];
    assert RunsFrom(s, 4) == ["321"];
  }

  lemma PairFindFirst(s: string)
    requires s == ".123.321."
    ensures FindFrom(s, "123", 0) == Some(1)
  {
    FindPast(s, "123", 0, 0);
    assert FindFrom(s, "123", 1) == Some(1);
  }

  /** "321" is first seen at 5: the "3" of "123" is not followed by "21". */
  lemma PairFindSecond(s: string)
    requires s == ".123.321."
    ensures FindFrom(s, "321", 0) == Some(5)
  {
    FindPast(s, "321", 0, 0);
    FindPast(s, "321", 1, 0);
    FindPast(s, "321", 2, 0);
    FindPast(s, "321", 3, 1);
    FindPast(s, "321", 4, 0);
    assert FindFrom(s, "321", 5) == Some(5);
  }

  /** ".123.321." holds two numbers, each found where it starts. */
  lemma Pair(row: nat)
    ensures RowNumbers(".123.321.", row) == [PartNumber("123", row, 1), PartNumber("321", row, 5)]
  {
    PairRuns();
    PairPlaced(".123.321.", row);
  }

  lemma PairPlaced(s: string, row: nat)
    requires s == ".123.321." && DigitRuns(s) == ["123", "321"]
    ensures RowNumbers(s, row) == [PartNumber("123", row, 1), PartNumber("321", row, 5)]
  {
    PairFindFirst(s);
    PairFindSecond(s);
  }

  lemma LeadingRuns()
    ensures DigitRuns("123_") == ["123"] && DigitRuns("123") == ["123"]
  {
    var s, t := "123_", "123";
    assert SkipEnd(s, 0) == 0 && TakeEnd(s, 0) == 3 && SkipEnd(s, 3) == 4;
    assert SkipEnd(t, 0) == 0 && TakeEnd(t, 0) == 3 && SkipEnd(t, 3) == 3;
    assert s[0..3] == "123" && t[0..3] == "123";
  }

  /** A line that starts with "123" and has no other digit. */
  lemma Leading(s: string)
    requires s == "123_" || s == "123"
    ensures RowNumbers(s, 0) == [PartNumber("123", 0, 0)]
  {
    LeadingRuns();
    assert s[0..3] == "123";
  }

  lemma SumOne(grid: Grid, p: PartNumber)
    requires AllDigits(p.number)
    ensures PartSum(grid, [p]) == if Adjacent(grid, p) then DigitsValue(p.number) else 0
  {
    assert [p][1..] == [];
  }

  lemma SumTwo(grid: Grid, p: PartNumber, q: PartNumber)
    requires AllDigits(p.number) && AllDigits(q.number)
    ensures PartSum(grid, [p, q]) ==
      (if Adjacent(grid, p) then DigitsValue(p.number) else 0)
      + (if Adjacent(grid, q) then DigitsValue(q.number) else 0)
  {
    assert [p, q][1..] == [q];
    SumOne(grid, q);
  }

  lemma Values()
    ensures AllDigits("123") && DigitsValue("123") == 123
    ensures AllDigits("321") && DigitsValue("321") == 321
  {
    assert "123"[..2] == "12" && "12"[..1] == "1" && "1"[..0] == "";
    assert "321"[..2] == "32" && "32"[..1] == "3" && "3"[..0] == "";
  }

  /** A symbol below and to the right of a number's first digit. */
  lemma SideExample()
    ensures PartOne([".....", ".123.", ".._.."]) == 123
  {
    var grid := [".....", ".123.", ".._.."];
    ThreeLines(grid[0], grid[1], grid[2]);
    Blank(grid[0], 0);
    Middle(1);
    Blank(grid[2], 2);
    var p := PartNumber("123", 1, 1);
    assert ParseNumbers(grid) == [p];
    assert SymbolAt(grid, 2, 2);
    Values();
    SumOne(grid, p);
  }

  /** A symbol diagonally below the number's last digit. */
  lemma DiagonalExample()
    ensures PartOne([".....", ".123.", "...._"]) == 123
  {
    var grid := [".....", ".123.", "...._"];
    ThreeLines(grid[0], grid[1], grid[2]);
    Blank(grid[0], 0);
    Middle(1);
    Blank(grid[2], 2);
    var p := PartNumber("123", 1, 1);
    assert ParseNumbers(grid) == [p];
    assert SymbolAt(grid, 2, 4);
    Values();
    SumOne(grid, p);
  }

  /** A one-line grid: the window is cut at the top and at the left. */
  lemma SmallGridExample()
    ensures PartOne(["123_"]) == 123
  {
    var grid := ["123_"];
    OneLine(grid[0]);
    Leading(grid[0]);
    var p := PartNumber("123", 0, 0);
    assert ParseNumbers(grid) == [p];
    assert SymbolAt(grid, 0, 3);
    Values();
    SumOne(grid, p);
  }

  /** A number with no symbol anywhere is no part number. */
  lemma NoPartNumberExample()
    ensures PartOne(["123"]) == 0
  {
    var grid := ["123"];
    PlainCells(grid[0], 0);
    NoSymbolNoParts(grid);
  }

  /** The only symbol of the single-part-number grid is at row 2, column 3. */
  lemma SingleSymbol(grid: Grid, r: nat, c: nat)
    requires grid == [".........", ".123.321.", "..._....."]
    requires SymbolAt(grid, r, c)
    ensures r == 2 && c == 3
  {
    PlainCells(grid[0], 0);
    PlainCells(grid[1], 0);
    PlainCells(grid[2], 4);
  }

  /** "321" in the single-part-number grid is away from its symbol. */
  lemma SingleAway(grid: Grid)
    requires grid == [".........", ".123.321.", "..._....."]
    ensures !Adjacent(grid, PartNumber("321", 1, 5))
  {
    forall r: nat, c: nat | SymbolAt(grid, r, c) ensures r == 2 && c == 3 {
      SingleSymbol(grid, r, c);
    }
  }

  /** The numbers of both wide grids. */
  lemma WideNumbers(last: string)
    requires last in {"..._.....", "...._...."}
    ensures ParseNumbers([".........", ".123.321.", last])
         == [PartNumber("123", 1, 1), PartNumber("321", 1, 5)]
  {
    ThreeLines(".........", ".123.321.", last);
    WideSkips();
    NoDigitLine(".........", 0);
    Pair(1);
    NoDigitLine(last, 2);
  }

  /** Only the first of two numbers touches the symbol. */
  lemma SinglePartNumberExample()
    ensures PartOne([".........", ".123.321.", "..._....."]) == 123
  {
    var grid := [".........", ".123.321.", "..._....."];
    WideNumbers(grid[2]);
    SingleSum(grid);
  }

  lemma SingleSum(grid: Grid)
    requires grid == [".........", ".123.321.", "..._....."]
    ensures PartSum(grid, [PartNumber("123", 1, 1), PartNumber("321", 1, 5)]) == 123
  {
    var p, q := PartNumber("123", 1, 1), PartNumber("321", 1, 5);
    assert grid[2][3] == '_';
    assert SymbolAt(grid, 2, 3);
    SingleAway(grid);
    Values();
    SumTwo(grid, p, q);
  }

  /** One symbol between two numbers makes both part numbers. */
  lemma DoublePartNumberExample()
    ensures PartOne([".........", ".123.321.", "...._...."]) == 444
  {
    var grid := [".........", ".123.321.", "...._...."];
    WideNumbers(grid[2]);
    DoubleSum(grid);
  }

  lemma DoubleSum(grid: Grid)
    requires grid == [".........", ".123.321.", "...._...."]
    ensures PartSum(grid, [PartNumber("123", 1, 1), PartNumber("321", 1, 5)]) == 444
  {
    var p, q := PartNumber("123", 1, 1), PartNumber("321", 1, 5);
    assert grid[2][4] == '_';
    assert SymbolAt(grid, 2, 4);
    Values();
    SumTwo(grid, p, q);
  }

  lemma QuirkRuns()
    ensures DigitRuns("123.12") == ["123", "12"] && StartsFrom("123.12", 0) == [0, 4]
  {
    var s := "123.12";
    assert SkipEnd(s, 0) == 0 && TakeEnd(s, 0) == 3 && SkipEnd(s, 3) == 4;
    assert TakeEnd(s, 4) == 6 && SkipEnd(s, 6) == 6;
    assert s[0..3] == "123" && s[4..6] == "12";
    assert RunsFrom(s, 6) == [] && StartsFrom(s, 6) == [];
    assert RunsFrom(s, 3) == ["12"] && StartsFrom(s, 3) == [4];
  }

  /** `find` places the "12" written at column 4 of "123.12" at column 0,
      inside "123". */
  lemma FindQuirk()
    ensures RowNumbers("123.12", 0) == [PartNumber("123", 0, 0), PartNumber("12", 0, 0)]
    ensures PlacedRowNumbers("123.12", 0) == [PartNumber("123", 0, 0), PartNumber("12", 0, 4)]
  {
    QuirkRuns();
    assert "123.12"[0..3] == "123" && "123.12"[0..2] == "12";
  }

  lemma TwoLines(a: string, b: string)
    ensures ParseNumbers([a, b]) == RowNumbers(a, 0) + RowNumbers(b, 1)
  {
    assert [a, b][..1] == [a];
    OneLine(a);
  }

  lemma TwoLinesPlaced(a: string, b: string)
    ensures PlacedNumbers([a, b]) == PlacedRowNumbers(a, 0) + PlacedRowNumbers(b, 1)
  {
    assert [a, b][..1] == [a];
    assert [a][..0] == [];
    assert PlacedNumbers([a]) == [] + PlacedRowNumbers(a, 0);
  }

  /** The only symbol of the quirk grid is at row 1, column 5. */
  lemma QuirkSymbol(grid: Grid, r: nat, c: nat)
    requires grid == ["123.12", "....._"]
    requires SymbolAt(grid, r, c)
    ensures r == 1 && c == 5
  {
    PlainCells(grid[0], 0);
    assert grid[1][..5] == ".....";
    PlainCells(".....", 0);
  }

  /** With "12" placed inside "123", neither number is next to the symbol. */
  lemma QuirkSums(grid: Grid)
    requires grid == ["123.12", "....._"]
    ensures PartSum(grid, [PartNumber("123", 0, 0), PartNumber("12", 0, 0)]) == 0
    ensures PartSum(grid, [PartNumber("123", 0, 0), PartNumber("12", 0, 4)]) == 12
  {
    var p, q, q' := PartNumber("123", 0, 0), PartNumber("12", 0, 0), PartNumber("12", 0, 4);
    forall r: nat, c: nat | SymbolAt(grid, r, c) ensures r == 1 && c == 5 {
      QuirkSymbol(grid, r, c);
    }
    assert grid[1][5] == '_';
    assert SymbolAt(grid, 1, 5);
    assert AllDigits("12") && DigitsValue("12") == 12 by {
      assert "12"[..1] == "1" && "1"[..0] == "";
    }
    Values();
    SumTwo(grid, p, q);
    SumTwo(grid, p, q');
  }

  lemma QuirkNumbers(grid: Grid)
    requires grid == ["123.12", "....._"]
    ensures ParseNumbers(grid) == [PartNumber("123", 0, 0), PartNumber("12", 0, 0)]
    ensures PlacedNumbers(grid) == [PartNumber("123", 0, 0), PartNumber("12", 0, 4)]
  {
    TwoLines(grid[0], grid[1]);
    TwoLinesPlaced(grid[0], grid[1]);
    FindQuirk();
    assert DigitRuns(grid[1]) == [] by {
      assert SkipEnd("....._", 0) == 6;
    }
  }

  /** The column quirk loses a part number: "12" touches the symbol, yet the
      solution's sum is 0 where the intended one is 12. */
  lemma QuirkMissesPart()
    ensures PartOne(["123.12", "....._"]) == 0
    ensures PartOnePlaced(["123.12", "....._"]) == 12
  {
    QuirkNumbers(["123.12", "....._"]);
    QuirkSums(["123.12", "....._"]);
  }
}
