# Advent of Code 2023, days 1 to 8, in Dafny

A model of eight puzzle solutions from Advent of Code 2023 (`src/bin/01.rs` to
`src/bin/08.rs`), with proofs of what each solution computes. One module per
day, plus a module with the worked examples of each day and a shared `Common`
module:

| file | module | puzzle |
|---|---|---|
| `common.dfy` | `Common` | `Option`, panics as `Result.Panic`, sums, products, minima, decimal digit strings |
| `day01_trebuchet.dfy` | `Trebuchet`, `TrebuchetExample` | calibration values: first and last digit of a line, digits also spelled out in part two |
| `day02_cubes.dfy` | `CubeConundrum`, `CubeConundrumExample` | cube games: possible games and the power of the smallest bag |
| `day03_gears.dfy` | `GearRatios`, `GearRatiosExample` | part numbers: digit runs next to a symbol in a grid |
| `day04_scratchcards.dfy` | `Scratchcards`, `ScratchcardsExample` | scratchcard points and the copies each card wins |
| `day05_almanac.dfy` | `SeedAlmanac`, `SeedAlmanacExample` | seeds mapped through staged ranges; least location of single seeds and of seed ranges |
| `day05_intervals.dfy` | `IntervalResolver` | seed ranges resolved as intervals, proved to give the same answer as expanding every seed |
| `day06_boat_race.dfy` | `BoatRace`, `BoatRaceExample` | boat races: number of winning hold times, merged numbers |
| `day07_camel.dfy` | `CamelCards`, `CamelCardsExample` | Camel Cards: hand types, jokers, hand order, sorting and winnings |
| `day08_wasteland.dfy` | `Wasteland`, `WastelandExample` | walks on a left/right network; gcd, lcm and the ghosts' common arrival |

The inputs are the typed values the parsers produce (lines, games, cards,
seeds and maps, races, hands with bids, instructions and nodes). The solutions
panic on `unwrap`, `expect` and `unreachable!`; a panic is a value
(`Result.Panic`, `Option.None`, or `Run.Panicked` for day 8), and the
contracts of the operations that can panic say when it happens, for the
character-level inputs the model takes (see "Left out" for byte offsets). Where a solution mutates state in a loop
(`get_location`, `is_valid`, `parse_line_numbers`, `power_of_minimum_blocks`,
the accumulation in `parse_cube_set`, `calculate_points`, the copy table of
day 4, `record_beating_count`, the counting loop of `HandType::new`, the walks
of day 8, the part-two scanner of day 1), the model has a method with that
loop, proved against a function that states its result; the properties are
lemmas about those functions. Where the solution returns `Some(..)` on every
path (`part_one`/`part_two` of most days), the model returns the value itself.

## Model

| member | source | states |
|---|---|---|
| Common.MinOf | src/bin/05.rs:77-80 | `Iterator::min`: none exactly for an empty sequence, otherwise at most every element and equal to one of them |
| Common.MinOfIs | src/bin/05.rs:77-80 | an element at most every other element is the minimum |
| Common.SumAppend | src/bin/01.rs:17 | `Iterator::sum` over two parts adds up |
| Common.ProductAppend | src/bin/06.rs:61 | `Iterator::product` over two parts multiplies |
| Common.TwoDigits | src/bin/01.rs:15 | two digits written side by side read back as ten times the first plus the second |
| Common.Decimal | src/bin/06.rs:69 | `to_string` writes at least one digit and no leading zero |
| Common.DigitsValueAppend | src/bin/06.rs:70-71 | the value of concatenated digit strings is the first value shifted by the second one's length, plus the second value |
| Common.DecimalRoundTrip | src/bin/06.rs:69-71 | parsing what `to_string` wrote gives the number back |
| Common.DecimalLength | src/bin/06.rs:69 | the decimal form of `n` has as many digits as the powers of ten around `n` require |
| Trebuchet.FirstDigit | src/bin/01.rs:7-10 | the first ASCII digit's index; none exactly when the line has no digit; no digit before it |
| Trebuchet.LastDigit | src/bin/01.rs:11-14 | the last ASCII digit's index; none exactly when the line has no digit; no digit after it |
| Trebuchet.LineValue | src/bin/01.rs:6-16 | panics (`expect`) exactly when the line has no digit, `0` included; otherwise a value of at most 99 |
| Trebuchet.FirstAndLast | src/bin/01.rs:7-15 | the value is ten times the first digit plus the last digit, with the first digit used twice when it is the only one |
| Trebuchet.LineValueIsFirstAndLast | src/bin/01.rs:7-15 | some first digit `i` and last digit `j` with nothing outside them give the value `10·d(i) + d(j)` |
| Trebuchet.LineValueOfDigits | src/bin/01.rs:7-15 | conversely, the outermost digits of a line determine its value |
| Trebuchet.PartOne | src/bin/01.rs:3-20 | succeeds exactly when every line has a digit; bounded by 99 per line |
| Trebuchet.PartOneSums | src/bin/01.rs:17 | part one is the sum of the lines' values |
| Trebuchet.NumberValue | src/bin/01.rs:29-44 | a converted number is 1–9 and is that digit or its word |
| Trebuchet.NumberValues | src/bin/01.rs:22-44 | every entry of `NUMBERS` converts, a digit and its word to the same value |
| Trebuchet.NoZero | src/bin/01.rs:22-41 | neither "0" nor "zero" is a number: both reach `unreachable!` |
| Trebuchet.NumberValueOk | src/bin/01.rs:29-44 | the conversion succeeds exactly on the entries of `NUMBERS` |
| Trebuchet.FirstMatch | src/bin/01.rs:52-58 | the entry found at the start of a string is a prefix of it |
| Trebuchet.MatchFromIsFirst | src/bin/01.rs:52-58 | trying the entries in order finds the first one the string starts with, and nothing when none is a prefix |
| Trebuchet.SearchFindsFirstMatch | src/bin/01.rs:52-58 | the in-order search and the two-character lookup find the same entry |
| Trebuchet.MatchIsUnique | src/bin/01.rs:52-58 | whatever entry a string starts with is the one found, so the order of `NUMBERS` does not matter |
| Trebuchet.TryNumbers | src/bin/01.rs:52-59 | the inner `for` loop with its `break` returns the first matching entry |
| Trebuchet.ScanLine | src/bin/01.rs:49-62 | the `while` loop pushes exactly the recognised numbers, in order |
| Trebuchet.Found | src/bin/01.rs:53-57 | after a match of length `L` the scan resumes `L` characters on |
| Trebuchet.Skipped | src/bin/01.rs:61 | a position with no match moves the scan on by one |
| Trebuchet.RecognisedConvert | src/bin/01.rs:65-66 | every recognised number converts, so `unreachable!` is never reached |
| Trebuchet.RecognisedOccurs | src/bin/01.rs:53-55 | each recognised number is written in the line at the position where it was found |
| Trebuchet.RecognisedDisjoint | src/bin/01.rs:56-61 | each recognised number starts after the previous one ends, so overlapping words are not recognised |
| Trebuchet.LineValueTwo | src/bin/01.rs:64-68 | panics exactly when nothing is recognised; otherwise ten times the first number plus the last, between 11 and 99 |
| Trebuchet.CalibrateLine | src/bin/01.rs:48-69 | one line of part two, scanned and combined, is `LineValueTwo` |
| Trebuchet.PartTwo | src/bin/01.rs:46-71 | succeeds exactly when every line has a recognised number; bounded by 99 per line |
| Trebuchet.PartTwoSums | src/bin/01.rs:70 | part two is the sum of the lines' values |
| TrebuchetExample.ExamplePartOne | src/bin/01.rs:77-81 | the puzzle's part-one example sums to 142 |
| TrebuchetExample.OverlapNotRecognised | src/bin/01.rs:53-61 | "eightwo" holds "two" at index 4 but only "eight" is recognised |
| TrebuchetExample.ExamplePartTwo | src/bin/01.rs:83-95 | the seven-line example of part two sums to 281 |
| CubeConundrum.CubeOf | src/bin/02.rs:18-27 | exactly "red", "green" and "blue" make a cube, each of its own colour with the given amount; any other name is unreachable |
| CubeConundrum.Total | src/bin/02.rs:78-84 | a colour never mentioned totals 0, and each mention is at most the total |
| CubeConundrum.TotalAppend | src/bin/02.rs:78-84 | totals over two parts of a handful add up |
| CubeConundrum.CubeSetOf | src/bin/02.rs:73-86 | the accumulation loop gives each colour the sum of its mentions |
| CubeConundrum.IsValid | src/bin/02.rs:36-41 | a handful is valid exactly when it fits a bag of 12 red, 13 green and 14 blue |
| CubeConundrum.GameIsValid | src/bin/02.rs:49-52 | a game is valid exactly when every handful fits a bag of 12 red, 13 green and 14 blue |
| CubeConundrum.MaxOf | src/bin/02.rs:55-62 | the running maximum is at least the colour in every handful and is 0 or one of them |
| CubeConundrum.MinimumBagIsLeast | src/bin/02.rs:54-64 | the per-colour maxima make the game possible, and a bag makes it possible exactly when it holds them |
| CubeConundrum.GameValidByMinimumBag | src/bin/02.rs:50-64 | a game is valid exactly when its minimum bag is within the limits |
| CubeConundrum.PowerOfMinimumBlocks | src/bin/02.rs:54-64 | the loop's result is the product of the per-colour maxima |
| CubeConundrum.AbsentIffNoMax | src/bin/02.rs:55-62 | a colour is missing from every handful exactly when its running maximum stays 0 |
| CubeConundrum.PowerZero | src/bin/02.rs:55-63 | the power is 0 exactly when some colour is absent from every handful |
| CubeConundrum.PartOne | src/bin/02.rs:98-106 | with no valid game the sum is 0 |
| CubeConundrum.PartOneAllValid | src/bin/02.rs:101-105 | with every game valid, part one sums all ids |
| CubeConundrum.PartOneAppend | src/bin/02.rs:101-105 | part one over two lists of games adds up |
| CubeConundrum.InvalidGameAddsNothing | src/bin/02.rs:103 | an invalid game contributes nothing |
| CubeConundrum.PartTwo | src/bin/02.rs:108-114 | the sum is at least every game's power |
| CubeConundrum.PartTwoAppend | src/bin/02.rs:111-113 | part two over two lists of games adds up |
| CubeConundrumExample.ExamplePartOne | src/bin/02.rs:120-124 | the puzzle's example gives 8 |
| CubeConundrumExample.ExamplePartTwo | src/bin/02.rs:126-130 | the puzzle's example gives 2286 |
| GearRatios.IsValid | src/bin/03.rs:12-29 | the nested loops answer true exactly when some in-grid cell of the window around the number (one row and column beyond it on every side, cut at 0) holds a symbol |
| GearRatios.OwnDigitsNeverCount | src/bin/03.rs:21 | the cells a number's own digits cover are never symbols, so a number never makes itself a part number |
| GearRatios.SkipEnd | src/bin/03.rs:36 | `take_till` stops at the first digit or at the end of the line, and the character before the stop is no digit |
| GearRatios.SkipEndNonDigits | src/bin/03.rs:36 | everything `take_till` skips is a non-digit |
| GearRatios.TakeEnd | src/bin/03.rs:37 | `digit0` stops at the first non-digit or at the end of the line |
| GearRatios.TakeEndDigits | src/bin/03.rs:37 | everything `digit0` takes is a digit |
| GearRatios.StartsFrom | src/bin/03.rs:35-42 | one start position per collected run |
| GearRatios.LineNumbers | src/bin/03.rs:32-45 | the `while` loop collects exactly the runs of the line, in order |
| GearRatios.RunsAt | src/bin/03.rs:35-42 | each collected run is a non-empty, maximal run of digits written in the line at its start |
| GearRatios.RunsOrdered | src/bin/03.rs:35-42 | the runs come in order, each ending before the next starts, with a non-digit between them |
| GearRatios.RunsSpellDigits | src/bin/03.rs:35-42 | no digit is lost or repeated: the runs, concatenated, are the line's digits in order |
| GearRatios.FindFrom | src/bin/03.rs:54 | `str::find` returns where the needle is written, with no earlier occurrence; nothing exactly when it occurs nowhere |
| GearRatios.RunsFound | src/bin/03.rs:54 | every run is found in its line, at or before its own start, so the `unwrap` never panics |
| GearRatios.RowNumbers | src/bin/03.rs:48-61 | one part number per run of the line, in order, on that row, at the first column where its digits are written |
| GearRatios.FirstAtUnique | src/bin/03.rs:54 | the first occurrence of a needle is unique |
| GearRatios.PlacementsAgree | src/bin/03.rs:54 | `find` places a run at its own start whenever its digits are not written earlier in the line |
| GearRatios.ParseNumbers | src/bin/03.rs:47-64 | every number is a non-empty run of digits on a row of the schematic, at the first column of that row where its digits occur; rows never go back |
| GearRatios.ParseNumbersRows | src/bin/03.rs:47-64 | the numbers on row `i` are exactly, and in order, the numbers line `i` gives |
| GearRatios.PartSum | src/bin/03.rs:73-79 | every number next to a symbol adds at least its value |
| GearRatios.PartSumByRows | src/bin/03.rs:73-79 | the filtered sum over all the numbers is the sum, line by line, of each line's filtered sum |
| GearRatios.PartOneByRows | src/bin/03.rs:66-80 | part one adds up, over the lines, the values of each line's numbers that touch a symbol anywhere in the grid |
| GearRatios.PartSumNoneAdjacent | src/bin/03.rs:73-79 | numbers away from every symbol add up to 0 |
| GearRatios.PartSumAppend | src/bin/03.rs:73-79 | the filtered sum over two lists of numbers is the sum over the first plus the sum over the second |
| GearRatios.NoSymbolNoParts | src/bin/03.rs:66-80 | a schematic without symbols sums to 0 |
| GearRatios.PartTwo | src/bin/03.rs:82-84 | part two always answers none |
| GearRatios.PlacedRowNumbers | src/bin/03.rs:48-61 | corrected placement: each run at the column where it starts, a maximal run of digits there |
| GearRatios.PlacedNumbers | src/bin/03.rs:47-64 | corrected `parse_numbers`: every number is a maximal run of digits written at its row and column; rows never go back |
| GearRatios.PlacedNumbersRows | src/bin/03.rs:47-64 | corrected: the numbers on row `i` are exactly, and in order, line `i`'s runs at their own starts |
| GearRatios.PlacedSumByRows | src/bin/03.rs:73-79 | corrected: the filtered sum over all placed numbers is the sum, line by line, of each line's filtered sum |
| GearRatios.PartOnePlacedByRows | src/bin/03.rs:66-80 | corrected part one adds up, over the lines, the values of each line's runs that touch a symbol |
| GearRatiosExample.SideExample | src/bin/03.rs:90-98 | a symbol beside the number gives 123 |
| GearRatiosExample.DiagonalExample | src/bin/03.rs:100-108 | a symbol diagonal to the number gives 123 |
| GearRatiosExample.SmallGridExample | src/bin/03.rs:110-114 | the window is cut at the grid's top and left edges, and "123_" gives 123 |
| GearRatiosExample.NoPartNumberExample | src/bin/03.rs:116-120 | a number without a symbol gives 0 |
| GearRatiosExample.SinglePartNumberExample | src/bin/03.rs:122-130 | only the number touching the symbol counts: 123 |
| GearRatiosExample.DoublePartNumberExample | src/bin/03.rs:132-140 | one symbol between two numbers makes both count: 444 |
| GearRatiosExample.FindQuirk | src/bin/03.rs:54 | `find` places the "12" of "123.12" at column 0, inside "123", where the corrected placement has column 4 |
| GearRatiosExample.QuirkMissesPart | src/bin/03.rs:54 | with a symbol after "12", the solution's sum is 0 and the corrected sum is 12 |
| Scratchcards.SetOf | src/bin/04.rs:61-62 | collecting a list into a `BTreeSet` keeps exactly its numbers |
| Scratchcards.Matching | src/bin/04.rs:35-40 | the matches are the owned numbers that are also winning numbers, at most as many as either set holds |
| Scratchcards.DuplicatesCountOnce | src/bin/04.rs:35-62 | an owned number listed twice counts once |
| Scratchcards.Points | src/bin/04.rs:21-33 | a card is worth nothing exactly without a match, and at least one point per match |
| Scratchcards.PointsDouble | src/bin/04.rs:24-30 | every match after the first doubles the points |
| Scratchcards.CalculatePoints | src/bin/04.rs:21-33 | the loop yields 0 without a match and `2^(m-1)` for `m` matches |
| Scratchcards.PartOne | src/bin/04.rs:71-75 | part one is 0 exactly when no card has a match, and at least each card's points |
| Scratchcards.PartOneAppend | src/bin/04.rs:71-75 | part one over two lists of cards adds up |
| Scratchcards.InitialCopies | src/bin/04.rs:79 | the table holds one copy of every card id and nothing else |
| Scratchcards.AddWon | src/bin/04.rs:84-88 | `entry(..).and_modify` never adds a key to the table |
| Scratchcards.AddWonAt | src/bin/04.rs:84-88 | the ids in the won range that have an entry gain the current card's copies; every other id keeps its count |
| Scratchcards.AddWonNext | src/bin/04.rs:84-88 | one more id of the inner loop updates that id alone, and only when it is in the table |
| Scratchcards.Process | src/bin/04.rs:81-89 | processing the cards keeps the table's keys |
| Scratchcards.ProcessNext | src/bin/04.rs:81-89 | one more card adds its count when its turn comes to the next `matching` ids; the `unwrap` at line 83 finds its entry |
| Scratchcards.AddCopies | src/bin/04.rs:84-88 | the inner loop leaves the table as `AddWon` describes |
| Scratchcards.SumCopies | src/bin/04.rs:91 | the loop sums the table's values, whatever the key order |
| Scratchcards.SumValuesAt | src/bin/04.rs:91 | the sum of the values can start from any key |
| Scratchcards.PartTwo | src/bin/04.rs:77-92 | part two is the sum of the table after every card has been processed in order, and the `unwrap` never panics |
| Scratchcards.ProcessNeverLowers | src/bin/04.rs:81-89 | no card's count ever goes down |
| Scratchcards.LaterCardsKeepCount | src/bin/04.rs:81-89 | with increasing ids, the cards after card `k` never change card `k`'s count |
| Scratchcards.LaterCardStep | src/bin/04.rs:84 | a card never changes the count of an id up to its own |
| Scratchcards.CountFinalWhenProcessed | src/bin/04.rs:83 | with increasing ids, the copies a card hands out are its final count |
| Scratchcards.PartTwoAtLeastCards | src/bin/04.rs:79-91 | part two counts at least one copy of every distinct card |
| ScratchcardsExample.Matches | src/bin/04.rs:35-40 | the example's cards have 4, 2, 2, 1, 0 and 0 matches |
| ScratchcardsExample.ExamplePartOne | src/bin/04.rs:98-102 | the example's points sum to 13 |
| ScratchcardsExample.StepOne | src/bin/04.rs:84-88 | card 1 wins one copy each of cards 2 to 5 |
| ScratchcardsExample.StepTwo | src/bin/04.rs:84-88 | the two copies of card 2 win two copies each of cards 3 and 4 |
| ScratchcardsExample.StepThree | src/bin/04.rs:84-88 | the four copies of card 3 win four copies each of cards 4 and 5 |
| ScratchcardsExample.StepFour | src/bin/04.rs:84-88 | the eight copies of card 4 win eight copies of card 5 |
| ScratchcardsExample.ExamplePartTwo | src/bin/04.rs:104-108 | the example ends with 30 scratchcards |
| SeedAlmanac.FindRange | src/bin/05.rs:19-22 | `iter().find` returns the first range whose half-open source interval holds the value; none exactly when no range holds it |
| SeedAlmanac.GetLocation | src/bin/05.rs:16-27 | the loop over the stages computes the left fold `Location` of the per-stage map |
| SeedAlmanac.Miss | src/bin/05.rs:19-24 | a value that no range of a stage holds leaves the stage unchanged |
| SeedAlmanac.FirstMatch | src/bin/05.rs:19-23 | a value held first by range `i` becomes `destination + (v - source)`, whatever later ranges hold |
| SeedAlmanac.HalfOpen | src/bin/05.rs:20-21 | a range moves its first and last source values and leaves `source + length` alone |
| SeedAlmanac.NoRematch | src/bin/05.rs:18-25 | a stage applies at most one range: a moved value is not matched again in the same stage |
| SeedAlmanac.EmptyStage | src/bin/05.rs:19-24 | a stage with no ranges changes nothing |
| SeedAlmanac.LocationAppend | src/bin/05.rs:18-25 | running two lists of stages one after the other is running their concatenation |
| SeedAlmanac.LocationSnoc | src/bin/05.rs:18-25 | the last stage applies to the value the earlier stages produce |
| SeedAlmanac.Locations | src/bin/05.rs:77-79 | one location per seed, each the seed's location |
| SeedAlmanac.PartOne | src/bin/05.rs:75-81 | none exactly when there are no seeds; otherwise at most every seed's location and equal to one of them |
| SeedAlmanac.Pairs | src/bin/05.rs:85 | `chunks(2)` reads the seed list as consecutive `(start, length)` pairs; an odd list is excluded, since `chunk[1]` would panic |
| SeedAlmanac.Expand | src/bin/05.rs:85-89 | the expansion holds exactly the values of the pairs' half-open ranges |
| SeedAlmanac.PartTwo | src/bin/05.rs:83-91 | none exactly when every pair has length 0; otherwise at most the location of every value of every range and equal to one of them |
| SeedAlmanacExample.ExamplePartOne | src/bin/05.rs:97-101 | seeds 79, 14, 55 and 13 reach locations 82, 43, 86 and 35, so part one is 35 |
| SeedAlmanacExample.ExamplePartTwo | src/bin/05.rs:103-107 | the ranges 79..92 and 55..67 reach no location below 46, and seed 82 reaches 46 |
| IntervalResolver.SeedIntervals | src/bin/05.rs:85-89 | the intervals cover exactly the values of the seed ranges, and none is empty |
| IntervalResolver.MovedExactly | src/bin/05.rs:19-23 | the part of an interval that a range moves covers exactly the translations of the values the range holds |
| IntervalResolver.LeftExactly | src/bin/05.rs:19-24 | the parts of an interval a range leaves cover exactly the values it does not hold |
| IntervalResolver.StageForward | src/bin/05.rs:18-25 | every value of the pending intervals reaches, through the stage, a value of the resolved intervals |
| IntervalResolver.StageBack | src/bin/05.rs:18-25 | every value of the resolved intervals is where some pending value goes through the stage |
| IntervalResolver.ResolveForward | src/bin/05.rs:16-27 | every input value's location is covered by the resolved intervals |
| IntervalResolver.ResolveBack | src/bin/05.rs:16-27 | every value of the resolved intervals is some input value's location |
| IntervalResolver.LeastStart | src/bin/05.rs:90 | the least start of the resolved intervals is the least location of the input values |
| IntervalResolver.SplitConserves | src/bin/05.rs:19-24 | a range splits an interval into pieces whose lengths add up to the interval's |
| IntervalResolver.PartTwoByIntervalsCorrect | src/bin/05.rs:83-91 | the interval resolver and the brute-force expansion give the same answer for every input |
| IntervalResolver.IntervalsNotBelow | src/bin/05.rs:83-91 | what the resolver finds, the brute force finds too, no higher |
| IntervalResolver.BruteNotBelow | src/bin/05.rs:83-91 | what the brute force finds, the resolver finds too, no higher |
| IntervalResolver.StageConserves | src/bin/05.rs:18-25 | a stage keeps the total length of the intervals: nothing is lost or duplicated |
| BoatRace.BeatingCount | src/bin/06.rs:19-32 | panics exactly when fewer than two hold times win; otherwise the number of winning hold times |
| BoatRace.RecordBeatingCount | src/bin/06.rs:19-32 | the forward search, then the reverse search over what it left, give `BeatingCount` |
| BoatRace.Contiguous | src/bin/06.rs:22-26 | a hold time between two winning hold times also wins, since `h·(time−h)` rises and then falls |
| BoatRace.CountFromBracket | src/bin/06.rs:28-31 | with the first and last winners found, the count `last − first + 1` is the number of winning hold times |
| BoatRace.CountFromEdges | src/bin/06.rs:28-31 | a first winner whose predecessor loses and a last winner whose successor loses bracket every winner |
| BoatRace.WinnersSplit | src/bin/06.rs:20 | winners of adjacent ranges add up |
| BoatRace.PartOne | src/bin/06.rs:56-62 | panics exactly when some race has fewer than two winners; otherwise the product of the per-race counts |
| BoatRace.ConcatDecimals | src/bin/06.rs:67-70 | the concatenated `to_string` outputs are all digits, and non-empty for a non-empty list |
| BoatRace.MergedReadsDigits | src/bin/06.rs:64-72 | reading the concatenated digits is shifting in each value after the digits of the earlier ones |
| BoatRace.MergeValues | src/bin/06.rs:64-72 | the value written by the concatenated digits; an error exactly when the list is empty or the value exceeds `u64::MAX` |
| BoatRace.PartTwo | src/bin/06.rs:74-85 | panics exactly when a merge fails or the merged race has fewer than two winners; otherwise that race's count |
| BoatRace.SingleWinnerPanics | src/bin/06.rs:28-29 | time 2 and record 0 have exactly one winner, and the count panics on it |
| BoatRaceExample.ExamplePartOne | src/bin/06.rs:91-95 | the races (7, 9), (15, 40) and (30, 200) have 4, 8 and 9 winners: 288 |
| BoatRaceExample.MergeTimes | src/bin/06.rs:64-72 | 7, 15 and 30 merge into 71530 |
| BoatRaceExample.ExamplePartTwo | src/bin/06.rs:97-101 | the merged race (71530, 940200) has 71503 winners |
| CamelCards.Value | src/bin/07.rs:12-27 | every card's discriminant lies between 2 and 14 |
| CamelCards.Strength | src/bin/07.rs:30-35 | strengths lie between 1 and 14, and only a J under joker rules has strength 1 |
| CamelCards.StrengthOrder | src/bin/07.rs:30-35 | different cards have different strengths; a joker is weaker than every other card; without jokers strength is the face value |
| CamelCards.CardOf | src/bin/07.rs:38-56 | a converted character is the letter of the card it gives |
| CamelCards.CardOfSymbol | src/bin/07.rs:38-56 | exactly the thirteen letters A K Q J T 9–2 convert, each to its own card; anything else is `unreachable!` |
| CamelCards.CardsOfFacts | src/bin/07.rs:155 | converting a hand panics exactly when some character is not a card letter; otherwise one card per character, in order |
| CamelCards.TickFacts | src/bin/07.rs:74-77 | counting a card keeps the map's keys strictly ordered and its amounts positive, and makes the card a key |
| CamelCards.TickCounts | src/bin/07.rs:74-77 | counting a card adds one to its amount and to the total, and adds an entry exactly when the card is new |
| CamelCards.TallyFacts | src/bin/07.rs:72-78 | the map of a hand is ordered and positive, its keys are the hand's cards and its amounts add up to the hand's length |
| CamelCards.TallyCounts | src/bin/07.rs:72-78 | each card's amount is its multiplicity in the hand |
| CamelCards.CountCards | src/bin/07.rs:72-78 | the counting loop builds the map `TallyOf` describes |
| CamelCards.Remove | src/bin/07.rs:80 | `remove` takes one entry away exactly when the card is a key |
| CamelCards.RemoveFacts | src/bin/07.rs:80 | removing keeps the map ordered and positive, takes the card's key and amount away and leaves every other card as it was |
| CamelCards.AddToAmounts | src/bin/07.rs:84-86 | `and_modify` changes only the target's amount, and only when it is a key |
| CamelCards.BiggestFirstMax | src/bin/07.rs:81-83 | the first entry after the stable descending sort has the largest amount, and every entry before it in key order has a smaller one |
| CamelCards.JokerTargetMax | src/bin/07.rs:79-86 | the jokers join a most frequent card other than J |
| CamelCards.JokerFacts | src/bin/07.rs:79-88 | moving the jokers drops J's entry, keeps order, positivity and the total, and adds J's amount to the target |
| CamelCards.AnyAmountCount | src/bin/07.rs:92-99 | `any(amount == k)` holds exactly when some entry has amount `k` |
| CamelCards.NewHandType | src/bin/07.rs:71-109 | counting, the joker step and the classification compute `HandTypeOf`, whose meaning the next rows state |
| CamelCards.HandTypeDefined | src/bin/07.rs:89-108 | `HandTypeOf`: an empty hand reaches `unreachable!`; a hand of one to five cards always has a type |
| CamelCards.FewerKindsRankHigher | src/bin/07.rs:89-108 | fewer kinds of card always give a strictly higher type |
| CamelCards.TypeByAmounts | src/bin/07.rs:89-108 | for five cards each type means its pattern of amounts (5; 4; 3 and 2; 3 without 2; two 2s; one 2 without 3; five 1s), both ways |
| CamelCards.KindsCount | src/bin/07.rs:72-78 | the map has as many entries with amount `k` as the hand has cards occurring `k` times |
| CamelCards.HandTypeMeaning | src/bin/07.rs:89-108 | without jokers, each type of a five-card hand holds exactly when its cards repeat in that type's pattern |
| CamelCards.JokerNeverWorse | src/bin/07.rs:79-88 | jokers never lower the type, strictly raise it when J and another card are present, change nothing without J, and make five jokers five of a kind |
| CamelCards.WithJokersAsCounts | src/bin/07.rs:84-86 | replacing every J by a card moves J's multiplicity to that card |
| CamelCards.JokersAsTarget | src/bin/07.rs:79-88 | with J and another card present, the joker type is the plain type of the hand with every J turned into the target card |
| CamelCards.TallyExt | src/bin/07.rs:72-78 | two ordered maps with positive amounts that agree on every card are the same map |
| CamelCards.NewHand | src/bin/07.rs:121-130 | a built hand keeps its cards, bid and rules, its type is its cards' type, and it panics exactly when the type does |
| CamelCards.FirstDifferenceLex | src/bin/07.rs:137-145 | the card-by-card comparison is never equal; it is none exactly when one hand's cards begin the other's, and otherwise compares strengths at the first differing position |
| CamelCards.FirstDifferenceFlip | src/bin/07.rs:137-145 | swapping the hands flips the card-by-card comparison |
| CamelCards.FirstDifferenceTransitive | src/bin/07.rs:137-145 | the card-by-card comparison is transitive |
| CamelCards.Compare | src/bin/07.rs:133-150 | never `Equal`, and without an answer only for hands whose types rank the same (`CompareNone` gives the exact condition) |
| CamelCards.CompareFlip | src/bin/07.rs:133-150 | hands under the same rules never compare equal, and swapping them flips the result |
| CamelCards.CompareTransitive | src/bin/07.rs:133-150 | `Less` is transitive for hands under the same rules |
| CamelCards.CompareNone | src/bin/07.rs:135-146 | two hands cannot be ordered exactly when they have the same type and one's cards begin the other's; for equal-length hands, exactly when their cards are equal; a hand against itself included |
| CamelCards.InsertFacts | src/bin/07.rs:167 | inserting into a sorted sequence succeeds exactly when the new hand can be ordered against every hand there, and gives a sorted sequence with one more hand |
| CamelCards.ComparableSnoc | src/bin/07.rs:167 | adding a hand keeps every pair orderable exactly when the earlier hands were and the new one is orderable against each |
| CamelCards.SortFacts | src/bin/07.rs:167 | `SortHands`: the sort succeeds exactly when every pair of hands can be ordered (the comparator's `unwrap`), and then returns a sorted permutation of the hands |
| CamelCards.SortedUnique | src/bin/07.rs:167 | two sorted orders of the same hands are the same sequence |
| CamelCards.RankedSumPerm | src/bin/07.rs:169-174 | the ranked sum depends only on which hands are summed, not on their order |
| CamelCards.RankedSumAll | src/bin/07.rs:169-174 | a hand's rank depends only on which hands it is ranked against |
| CamelCards.BelowSorted | src/bin/07.rs:167-172 | in a sorted sequence the hand at index `i` has exactly `i` hands below it |
| CamelCards.WinningsRanked | src/bin/07.rs:169-174 | `Winnings`: the winnings of a sorted sequence, bid times index plus one, are each hand's bid times its rank |
| CamelCards.SolvePuzzleRanked | src/bin/07.rs:164-175 | after parsing, the answer exists exactly when every pair can be ordered, and is then the ranked sum, whatever the sort |
| CamelCards.ParseHandsOk | src/bin/07.rs:152-162 | parsing succeeds exactly when every line gives a hand |
| CamelCards.ParseHandsValue | src/bin/07.rs:152-162 | a successful parse gives each line's hand in order, all under the same rules |
| CamelCards.ParseHandsEach | src/bin/07.rs:152-162 | lines that each give their hand parse into exactly those hands |
| CamelCards.SolveRanked | src/bin/07.rs:164-175 | `solve_puzzle` (`Solve`) succeeds exactly when every line gives a hand and every pair can be ordered; each hand then wins its bid times its rank |
| CamelCards.PartOne | src/bin/07.rs:177-179 | part one panics exactly when a line gives no hand or two hands cannot be ordered under the plain rules; otherwise each hand wins its bid times its rank |
| CamelCards.PartTwo | src/bin/07.rs:181-183 | the same under the joker rules |
| CamelCardsExample.FirstCardDecides | src/bin/07.rs:137-145 | two hands of the same type that differ in their first card are ordered by it |
| CamelCardsExample.ExampleOne | src/bin/07.rs:189-193 | the example's five hands give 6440 without jokers |
| CamelCardsExample.ExampleTwo | src/bin/07.rs:195-199 | the example's five hands give 5905 with jokers |
| Wasteland.Gcd | src/bin/08.rs:80-86 | Euclid's algorithm gives 0 exactly when both arguments are 0 |
| Wasteland.GcdDivides | src/bin/08.rs:80-86 | the gcd divides both arguments |
| Wasteland.GcdGreatest | src/bin/08.rs:80-86 | every common divisor divides the gcd |
| Wasteland.Bezout | src/bin/08.rs:80-86 | the gcd is an integer combination of the arguments |
| Wasteland.Lcm | src/bin/08.rs:88-90 | the division panics exactly when both arguments are 0 |
| Wasteland.LcmShape | src/bin/08.rs:88-90 | `a * b / gcd(a, b)` divides exactly: it is `(a / gcd) * b` |
| Wasteland.LcmCommonMultiple | src/bin/08.rs:88-90 | the lcm is a multiple of both arguments |
| Wasteland.LcmLeast | src/bin/08.rs:88-90 | the lcm divides every common multiple of the arguments |
| Wasteland.LcmZero | src/bin/08.rs:88-90 | the lcm is 0 exactly when an argument is 0 |
| Wasteland.InstructionOf | src/bin/08.rs:19-27 | `L` is Left, `R` is Right, and any other character is `unreachable!` |
| Wasteland.Arrival | src/bin/08.rs:66-76 | a finished walk stops at the first step on a goal, step `k` following instruction `k mod n`; a panic comes from a node without an entry before any goal; an empty instruction list stops at once with 0 |
| Wasteland.ArrivalFromMeaning | src/bin/08.rs:66-76 | the walk from any step on continues the walk from the start, with the same first arrival |
| Wasteland.FirstReachUnique | src/bin/08.rs:67-70 | the step at which the walk first stands on a goal is unique |
| Wasteland.ArrivalMoreFuel | src/bin/08.rs:66-76 | once the bound lets the walk arrive, a larger bound changes nothing |
| Wasteland.Walk | src/bin/08.rs:64-76 | the `for` loop over the cycled instructions, with its `break` and `unwrap`, computes `Arrival` |
| Wasteland.PartOne | src/bin/08.rs:62-78 | part one is the walk from `AAA` to `ZZZ` |
| Wasteland.StartNodes | src/bin/08.rs:94-97 | the start nodes are exactly the keys ending in `A` |
| Wasteland.LcmOfArrivalsMultiple | src/bin/08.rs:98-116 | the reduction is none exactly when there is no start node; otherwise every ghost arrives and its step count divides the result |
| Wasteland.LcmOfArrivalsLeast | src/bin/08.rs:116 | the reduction divides every common multiple of the step counts, so it is their least common multiple |
| Wasteland.EmptyInstructionsPanic | src/bin/08.rs:88-116 | with no instructions and at least two start nodes, every ghost arrives after 0 steps and the reduction panics in `lcm(0, 0)` |
| Wasteland.PartTwo | src/bin/08.rs:92-117 | given the network's keys, each once, the loop over the start nodes computes the `lcm` reduction of their arrivals, which is none exactly when no node ends in `A` |
| WastelandExample.ExamplePartOne | src/bin/08.rs:129-139 | `LLR` over the three-node network reaches `ZZZ` after 6 steps |
| WastelandExample.ExamplePartTwo | src/bin/08.rs:141-156 | the ghosts from `11A` and `22A` arrive after 2 and 3 steps; the reduction is 6 |
| WastelandExample.LcmTwoThree | src/bin/08.rs:88-90 | `lcm(2, 3)` is 6 |

## Left out

- Parsing with `nom` (`parse_*` functions of every day, `input.lines()`), reading the input files and the test harness: the models take the parsed values as parameters. The day-7 model keeps the character-by-character card conversion of `parse_hand` (src/bin/07.rs:155), since it can panic.
- Machine integers: all counts, sums and products are unbounded naturals. The `u32`/`u64` overflow panics (debug) or wrap-around (release) of the sums in days 1 to 4, `bid * rank` in day 7, `steps as u32` in day 8, `a * b` in `lcm`, `h * (time - h)` in day 6 and `src + len` in day 5 are not modelled. Day 6's `merge_values` is the exception: its `parse::<u64>` error is modelled with `U64_MAX`.
- GearRatios.PartOne: the `parse::<u32>().unwrap()` at src/bin/03.rs:76 is read as the digits' decimal value; a run of more than nine or ten digits would overflow `u32` and panic there, which the model does not capture.
- Bytes and characters: the lines are modelled as sequences of characters, so the model agrees with the solutions only on ASCII input. Day 1 part two (src/bin/01.rs:51-61) slices `line[index..]` at byte offsets and steps one byte at a time, which panics inside a multi-byte character (`"1é"`) where the model reads on; day 3 (src/bin/03.rs:54 and 68-71) uses the byte offset `find` returns as a column of the grid of `char`s, which places a number after a multi-byte character at the wrong column.
- An empty instruction list cannot come out of the day-8 parser (`alpha1` takes at least one letter); the model takes the instructions as a parameter, and `EmptyInstructionsPanic` states what part two would then do.
- `rayon` parallelism in day 5 part two: the model takes the sequential minimum; `min` does not depend on the order.
- The standard library's sort in day 7 is modelled as insertion sort, the algorithm it uses for short slices. `SortedUnique` shows that any sort of hands that succeeds yields the same order, and `SolvePuzzleRanked` states the answer without reference to the sort; which pairs the library compares, and so whether it reaches a panicking comparison, is not modelled for longer inputs.
- `HandType::new`'s `values.sort_by(..)` (src/bin/07.rs:82) is modelled by its outcome, the first entry in key order among those with the largest amount (`BiggestAt`), not by a sort.
- CamelCards.JokersAsTarget: part two's joker rule is proved to be a substitution of every J by the target card and never to lower a hand's type; that it picks the best possible type is not proved.
- Scratchcards.SumCopies and Scratchcards.PartTwo: the sum of the copy table is stated by a ghost function (`SumValues`) whose key order is arbitrary; `SumValuesAt` shows the order does not matter.
- Day 8 walks may not terminate: `Walk`, `PartOne` and `PartTwo` take a `fuel` bound and end in `OutOfFuel` when it runs out; `ArrivalMoreFuel` shows that a larger bound never changes a walk that arrived. The keys of the `BTreeMap` are a parameter (`keys`), required to be exactly the network's nodes, each once; their sorted order is not required, and only the order in which the ghosts are reduced depends on it.
- `println!` in day 8 part two (src/bin/08.rs:112) is output only and is left out.
- Day 3 part two is not implemented by the solution (it returns `None`), and the model says so; the gear-ratio puzzle itself is not modelled.
- The example inputs the file-based tests read are not part of this model; the examples proved are the ones written in the tests, and the puzzle statement's examples for days 1, 2, 4, 5, 6 and 7, written out as values.
- Day 5's `IntervalResolver` is not part of the solution's code; it is an alternative computation of part two, proved equal to the expansion the solution performs (`PartTwoByIntervalsCorrect`).

## Findings

| source | as written | input that shows it | evidently intended | confidence | as-written member | corrected member |
|---|---|---|---|---|---|---|
| src/bin/03.rs:54 | a number's column is `line.find(number)`, the first place its digits occur in the line, even inside a longer number | `["123.12", "....._"]`: "12" is written at column 4, next to the symbol at row 1, column 5, but `find` places it at column 0 | each number at the column where its own run starts, so the sum is 12 | not executed | GearRatiosExample.QuirkMissesPart | GearRatios.PlacedRowNumbers |
