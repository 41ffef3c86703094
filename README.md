# Advent of Code 2023, days 1–9, in Dafny

This project models the solvers for the first nine puzzles of Advent of Code 2023. Each solver takes the puzzle input as a list of lines and computes two answers. The project proves that each part computes what the puzzle asks for.

- **Day 1, calibration values.** Each line gives a two-digit number: its first digit followed by its last. Part two also counts spelled-out digit words.
- **Day 2, cube games.** Part one sums the ids of games that are possible with a bag of 12 red, 13 green and 14 blue cubes. Part two sums, over the games, the product of the fewest cubes of each colour that would make the game possible.
- **Day 3, engine schematic.** Part one sums the part numbers: numbers with a symbol in the box around them. Part two sums the gear ratios: the products for `*` symbols that have exactly two adjacent numbers.
- **Day 4, scratchcards.** Part one sums the scores, which double with every match after the first. Part two counts the cards once every card has won its copies.
- **Day 5, seed almanac.**
  - Part one maps each seed through the chain of maps and takes the least location.
  - Part two does the same for ranges of seeds. It splits each range against the rules of every map.
- **Day 6, boat races.** Part one multiplies the numbers of winning button holds across races. Part two first joins each line's numbers into one.
- **Day 7, Camel Cards.**
  - Hands are classified, then sorted by type and by card strength, and the bids are weighted by rank.
  - Part two makes `J` a joker. Jokers join the most frequent other card, and `J` becomes the weakest card when comparing.
- **Day 8, the desert network.**
  - Part one counts the steps from `AAA` to `ZZZ`, following the left/right instructions in a cycle.
  - Part two measures the cycle of each node ending in `A` and takes the least common multiple of the cycle lengths.
- **Day 9, sequence extrapolation.** Build the table of repeated differences, then fold it to get the next value (part one) or the previous value (part two).

Each solver is one module, `Day1` … `Day9`, in `day1.dfy` … `day9.dfy`. The module `Text` in `text.dfy` holds the string and iterator helpers the solvers share:
- digits and number parsing;
- `split`, `split_whitespace`, `trim` and `trim_start_matches`;
- `filter`, with its order and its counts;
- `sum`;
- collecting `Result`s and `try_fold` over them.

Loops in the source are `method`s with loop invariants. Each is proved equal to a specification function, and the lemmas about that function state what the puzzle asks for. Day 4's card counts live in an `array`, updated in place as in the source. Errors the source returns with `?` are `Result` values. Panics (`unwrap`, out-of-range indexing) are preconditions.

## Model

| member | source | states |
|---|---|---|
| Text.ParseNat | solutions/day2/src/main.rs:109 | `str::parse` for an unsigned integer succeeds exactly on a non-empty run of ASCII digits, with an optional leading `+` |
| Text.ParseNatOfDigits | solutions/day2/src/main.rs:109 | a run of digits parses to its decimal value |
| Text.ParseInt | solutions/day9/src/main.rs:26 | `parse::<isize>`: after a leading `-` the text parses exactly when one or more digits follow, to their value negated; otherwise it agrees with the unsigned parse |
| Text.ParseAllMeaning | solutions/day4/src/main.rs:83 | `filter_map(parse)` keeps exactly the numbers some token parses to |
| Text.ParseAllKeepsAll | solutions/day6/src/main.rs:47-61 | when every token parses, nothing is dropped and the i-th number is the i-th token's value |
| Text.ParseAllDrops | solutions/day5/src/main.rs:52 | a token that does not parse makes the list shorter than the tokens |
| Text.SplitWhitespace | solutions/day2/src/main.rs:105 | every token is non-empty and contains no whitespace |
| Text.SplitWhitespaceToken | solutions/day2/src/main.rs:105 | a token followed by whitespace or the end is the first piece, and splitting continues after it |
| Text.ConcatSplitWhitespace | solutions/day6/src/main.rs:63-79 | joining the whitespace-separated tokens is the text with its whitespace removed |
| Text.JoinSplitOn | solutions/day2/src/main.rs:72 | `split(pat)` loses nothing: joining the pieces with `pat` gives back the text |
| Text.SplitOnSingle | solutions/day2/src/main.rs:72-74 | the split has a single piece exactly when the pattern does not occur |
| Text.SplitOnFirst | solutions/day8/src/main.rs:92-93 | the first piece contains no occurrence of the pattern |
| Text.TrimStartMatches | solutions/day2/src/main.rs:76 | the result is a suffix of the text that no longer starts with the pattern |
| Text.TrimStartMatchesRemovesRepeats | solutions/day2/src/main.rs:76 | what is stripped from the front is whole copies of the pattern, one after another, and nothing else |
| Text.TrimStart | solutions/day2/src/main.rs:77 | the result is the text with its leading whitespace removed: a suffix that starts with no whitespace, and every removed character is whitespace |
| Text.TrimEnd | solutions/day2/src/main.rs:77 | the result is the text with its trailing whitespace removed: a prefix that ends with no whitespace, and every removed character is whitespace |
| Text.ContainsReverse | solutions/day1/src/main.rs:43 | a word occurs in a text exactly when its reversal occurs in the reversed text |
| Text.Filter | solutions/day3/src/main.rs:22 | every kept element is an element satisfying the predicate, and every element satisfying it is kept |
| Text.FilterConcat | solutions/day3/src/main.rs:22 | filtering a concatenation is the concatenation of the filtered parts, so order and multiplicity are kept |
| Text.FilterSingle | solutions/day3/src/main.rs:22 | a single element is kept exactly when it satisfies the predicate; with FilterConcat this fixes the filter of every list |
| Text.FilterPair | solutions/day3/src/main.rs:57-62 | when exactly two elements satisfy the predicate, the filter is those two, in order |
| Text.FilterLengthTwo | solutions/day3/src/main.rs:64 | a filter of length two means exactly two elements satisfy the predicate |
| Text.SumZero | solutions/day4/src/main.rs:22 | a sum is 0 exactly when every term is |
| Text.SumValuesMeaning | solutions/day1/src/main.rs:18-23 | summing `Result`s with `?` succeeds exactly when every value is `Ok`; its result is then the sum, otherwise the first error |
| Text.SumMappedMeaning | solutions/day2/src/main.rs:18-24 | a `try_fold` that sums a function of parsed values fails on the first parse error, else it is the sum of the function over the values |
| Text.CollectMeaning | solutions/day2/src/main.rs:77-83 | collecting `Result`s succeeds exactly when all are `Ok`, with the values in order; otherwise it gives the first error |
| Day1.FirstDigit | solutions/day1/src/main.rs:29-36 | a found character is a digit |
| Day1.FirstDigitMeaning | solutions/day1/src/main.rs:29-36 | a digit is found exactly when the line has one; it is the first digit, and otherwise the error is "no digit found" |
| Day1.FirstDigitOfReverse | solutions/day1/src/main.rs:20 | searching the reversed characters finds the line's last digit |
| Day1.LineValueOneMeaning | solutions/day1/src/main.rs:19-22 | a line's value is 10 times its first digit plus its last digit, below 100; it fails exactly when the line has no digit |
| Day1.PartOne | solutions/day1/src/main.rs:15-27 | the loop computes the sum of the line values, stopping at the first error |
| Day1.PartOneMeaning | solutions/day1/src/main.rs:15-27 | part one succeeds exactly when every line has a digit, and the sum is at most 99 per line |
| Day1.DigitWordsTable | solutions/day1/src/main.rs:52-63 | the table has ten rows; row k spells digit k in words of at least three letters, each with its reversal |
| Day1.WordFromMeaning | solutions/day1/src/main.rs:77-81 | the word search reports the first table row whose word or reversed word the text contains, and nothing when none does |
| Day1.ScanFromMeaning | solutions/day1/src/main.rs:65-85 | the scan succeeds exactly when some position is a hit, meaning a digit or a completed word; it reports the first hit, and otherwise the error is "no digit found" |
| Day1.FirstDigitMaybeFromWord | solutions/day1/src/main.rs:65-85 | the loop that pushes characters and checks the table computes the scan |
| Day1.WordEndsAtHit | solutions/day1/src/main.rs:75-81 | a word hit is a word ending at the character just pushed |
| Day1.BackwardScanReadsSuffixes | solutions/day1/src/main.rs:43 | scanning the reversed line finds a hit wherever a suffix starts with a digit or contains a word in either spelling |
| Day1.LineValueTwoFails | solutions/day1/src/main.rs:41-46 | a line fails in part two exactly when it has no hit, with the error "no digit found" |
| Day1.SumScans | solutions/day1/src/main.rs:38-50 | the loop of part two computes the sum of the line values, stopping at the first error |
| Day1.PartTwo | solutions/day1/src/main.rs:38-50 | part two is that loop over the digit-word table |
| Day1.PartTwoMeaning | solutions/day1/src/main.rs:38-50 | part two succeeds exactly when every line has a hit |
| Day1.PartTwoBound | solutions/day1/src/main.rs:38-50 | the sum of part two is at most 99 per line |
| Day1.ReversedSpellingReadForwards | solutions/day1/src/main.rs:78 | "eno7" has value 17 as written, although no 1 is written in it; the intended reading gives 77 |
| Day1.IntendedDigitsAreWritten | solutions/day1/src/main.rs:77-81 | with forward spellings forwards and reversed spellings backwards, both digits of a line's value are written in the line |
| Day2.ParseCubeFormatted | solutions/day2/src/main.rs:104-119 | an entry ` <digits> <word>` gives the cube of that count and colour when the word is `red`, `green` or `blue`, and "unknown color: <word>" otherwise |
| Day2.ParseCubeErrors | solutions/day2/src/main.rs:104-119 | a blank entry gives "no count part", `x red` "invalid count", `3` "no color part" and `3 purple` "unknown color: purple" |
| Day2.ParseCubeOk | solutions/day2/src/main.rs:104-119 | an entry parses exactly when its first token is a number and its second a colour |
| Day2.ParseRound | solutions/day2/src/main.rs:99-123 | the entry loop computes the round of its text, or the first entry's error |
| Day2.RoundSpecMeaning | solutions/day2/src/main.rs:99-123 | a round parses exactly when all its entries do; each colour's count is then the total over its entries; otherwise the first entry's error |
| Day2.TallyUnmentioned | solutions/day2/src/main.rs:100-103 | a colour no entry names counts 0 |
| Day2.ParseGameMeaning | solutions/day2/src/main.rs:71-86 | without ": " the error is "no rounds part"; otherwise the line parses exactly when the id after "Game " and every `;`-separated round parse; a bad id gives the integer parser's error, a bad round the first round error, and a parsed game has that id and those rounds in order |
| Day2.FindTooMany | solutions/day2/src/main.rs:47-50 | `find` reports the first round over 12 red, 13 green or 14 blue, and nothing when there is none |
| Day2.IsPossible | solutions/day2/src/main.rs:46-51 | a game is possible exactly when every round has at most 12 red, 13 green and 14 blue |
| Day2.PossibleIffMaximaFit | solutions/day2/src/main.rs:46-51 | a game is possible exactly when the bag (12, 13, 14) covers the per-colour maxima of its rounds |
| Day2.MaximaCoverRounds | solutions/day2/src/main.rs:53-62 | the per-colour maxima cover every round of the game |
| Day2.MaximaLeast | solutions/day2/src/main.rs:53-62 | any bag covering every round covers the maxima, so the maxima are the fewest cubes possible |
| Day2.MinPower | solutions/day2/src/main.rs:53-65 | the loop computes the product of the per-colour maxima, 0 for a game without rounds |
| Day2.PartOneMeaning | solutions/day2/src/main.rs:17-27 | part one succeeds exactly when every line parses; its sum is the ids of the possible games, and otherwise the first error |
| Day2.PartTwoMeaning | solutions/day2/src/main.rs:29-37 | part two succeeds exactly when every line parses; its sum is the games' powers, and otherwise the first error |
| Day3.RunEnd | solutions/day3/src/main.rs:104-107 | a run of digits extends to the end of the line or to the first non-digit |
| Day3.ScanRow | solutions/day3/src/main.rs:104-122 | the character loop of one line records that line's numbers and symbols |
| Day3.FromLines | solutions/day3/src/main.rs:97-126 | building the schematic records the numbers and symbols of all lines, line by line |
| Day3.RowSymbolsMeaning | solutions/day3/src/main.rs:109-111 | a line's symbols are exactly its characters that are neither digits nor `.`, at their columns |
| Day3.SymbolsMeaning | solutions/day3/src/main.rs:109-111 | the schematic's symbols are exactly the grid cells holding a character that is neither a digit nor `.` |
| Day3.NumbersMeaning | solutions/day3/src/main.rs:113-119 | the schematic's numbers are exactly one record per maximal run of digits, with the value of its digits |
| Day3.NumbersInOrderOfScan | solutions/day3/src/main.rs:101-104 | numbers are recorded in reading order, by row and then by column |
| Day3.SymbolsInOrderOfScan | solutions/day3/src/main.rs:101-111 | symbols are recorded in reading order, by row and then by column |
| Day3.PartNumbers | solutions/day3/src/main.rs:19-33 | the kept numbers are exactly the schematic's numbers that are parts |
| Day3.PartIffSymbolInBox | solutions/day3/src/main.rs:22-33 | a number is a part exactly when some grid cell in its box, one column and row beyond it on each side, holds a symbol |
| Day3.Stars | solutions/day3/src/main.rs:46 | the kept symbols are exactly the `*` symbols |
| Day3.GearRatioOfPair | solutions/day3/src/main.rs:54-68 | a `*` with exactly two adjacent numbers contributes their product |
| Day3.GearRatioOtherwise | solutions/day3/src/main.rs:64-68 | a `*` with any other number of adjacent numbers contributes 0 |
| Day3.FlushShiftsNumber | solutions/day3/src/main.rs:113-117 | as written, in `*...` / `..12` the 12 is recorded at columns 1–2, so it counts as a part |
| Day3.IntendedRecordsRuns | solutions/day3/src/main.rs:113-119 | with the intended columns, the numbers are exactly the runs at their own columns |
| Day3.IntendedExample | solutions/day3/src/main.rs:113-119 | with the intended columns, the 12 of that example is at columns 2–3 and is not a part |
| Day4.MatchesMeaning | solutions/day4/src/main.rs:51-56 | the matches are the numbers on both sides, at most as many as either side has |
| Day4.Score | solutions/day4/src/main.rs:58-65 | the score is 0 exactly when the card has no match |
| Day4.ScoreOfOne | solutions/day4/src/main.rs:58-65 | one match scores 1 |
| Day4.ScoreDoubles | solutions/day4/src/main.rs:58-65 | each further match doubles the score |
| Day4.NumberSetMeaning | solutions/day4/src/main.rs:78-92 | a number is on a side exactly when one of its tokens parses to it |
| Day4.ParseCardMeaning | solutions/day4/src/main.rs:71-98 | "no numbers part" without ": ", "couldn't parse winning numbers" without " \| "; it succeeds exactly when both are present |
| Day4.Cards | solutions/day4/src/main.rs:20 | the unwrapped parse of every line, in order |
| Day4.PartOneMeaning | solutions/day4/src/main.rs:17-25 | the sum of the scores is 0 exactly when no card has a match |
| Day4.WinCopies | solutions/day4/src/main.rs:35-37 | the inner loop adds the count of card i to the m cards after it, and changes nothing else |
| Day4.CountsMeaning | solutions/day4/src/main.rs:33-38 | after k cards are processed, cards before k hold their final counts; later cards hold 1 plus what earlier cards won for them |
| Day4.CountFinalWhenProcessed | solutions/day4/src/main.rs:34-38 | a card's count no longer changes once the outer loop has passed it |
| Day4.CountsAtLeastOne | solutions/day4/src/main.rs:33 | every card is held at least once |
| Day4.CountsAreCopies | solutions/day4/src/main.rs:33-38 | the final counts are the recursive copy counts: one original plus the copies won from each earlier card whose matches reach it |
| Day4.CountCards | solutions/day4/src/main.rs:33-38 | the loop over a fresh array of ones computes those counts |
| Day4.SumOf | solutions/day4/src/main.rs:40 | the loop sums the array |
| Day4.PartTwo | solutions/day4/src/main.rs:27-42 | part two is the sum of the copy counts |
| Day5.Lookup | solutions/day5/src/main.rs:31-39 | a value maps through the first rule whose source contains it, offset into its destination, and stays put when no rule does |
| Day5.LookupInDest | solutions/day5/src/main.rs:35 | a mapped value lands in the destination of the rule that mapped it |
| Day5.FoldLookupIsChain | solutions/day5/src/main.rs:27-42 | folding the seeds through the maps sends each seed to its value under the whole chain of maps |
| Day5.MinOf | solutions/day5/src/main.rs:44 | `min` gives a least element, and nothing for an empty list |
| Day5.PartOneIsLeastLocation | solutions/day5/src/main.rs:18-45 | part one is the least location any seed reaches, and nothing without seeds |
| Day5.SplitRange | solutions/day5/src/main.rs:76-89 | one range splits into the parts below and above the rule's source, which stay unmapped, and the part inside, which is shifted |
| Day5.SplitThree | solutions/day5/src/main.rs:77-79 | the three parts partition the range: a value is inside exactly when it is in the source, otherwise in exactly one of the other two |
| Day5.SplitPiecesFromRule | solutions/day5/src/main.rs:78-88 | every mapped piece lies in the rule's source, is non-empty and keeps its offset in the destination; every piece kept unmapped is non-empty |
| Day5.EmitMoves | solutions/day5/src/main.rs:84 | a value of a mapped piece moves to a value of the translated piece |
| Day5.SplitAgainst | solutions/day5/src/main.rs:75-90 | the loop over the unmapped ranges splits each against one rule |
| Day5.StageRange | solutions/day5/src/main.rs:66-92 | the loop over the rules computes the mapped ranges of one seed range |
| Day5.StageRangeAgreesWithLookup | solutions/day5/src/main.rs:66-92 | each value of a range that some rule covers lies in exactly one mapped piece, which sends it where the point lookup does; uncovered values lie in none |
| Day5.StageRangeLength | solutions/day5/src/main.rs:66-92 | the mapped ranges and the leftover ranges together are as long as the input range |
| Day5.StageFromNonEmpty | solutions/day5/src/main.rs:80-88 | every piece a stage emits is non-empty |
| Day5.FoldStagesNonEmpty | solutions/day5/src/main.rs:63-95 | after at least one map, every range is non-empty |
| Day5.StageRangeSound | solutions/day5/src/main.rs:66-92 | every value of a mapped range is the lookup of a covered value of the input range |
| Day5.StageAllComplete | solutions/day5/src/main.rs:63-95 | the lookup of every covered value of the input ranges lies in some output range |
| Day5.FoldStagesSound | solutions/day5/src/main.rs:63-95 | every value after all the maps is the chain of some seed that every map covers |
| Day5.FoldStagesComplete | solutions/day5/src/main.rs:63-95 | the chain of every seed that every map covers lies in some final range |
| Day5.SeedSpans | solutions/day5/src/main.rs:54-61 | the numbers pair into ranges from start to start plus length |
| Day5.MinStart | solutions/day5/src/main.rs:97 | the least start of the ranges, and nothing when there are none |
| Day5.FoldStagesLoop | solutions/day5/src/main.rs:63-95 | the fold over the maps computes the staged ranges |
| Day5.PartTwo | solutions/day5/src/main.rs:47-99 | part two is the least start of the final ranges |
| Day5.PartTwoIsLeastCoveredLocation | solutions/day5/src/main.rs:47-99 | part two is the least chain value over seeds that every map covers, and nothing when there are no such seeds |
| Day5.UncoveredRangeIsDropped | solutions/day5/src/main.rs:92 | as written, seed range [5, 6) against the single rule `50 98 2` maps to nothing, though point lookup keeps 5; the corrected stage passes it through |
| Day5.StagePassingAgreesWithLookup | solutions/day5/src/main.rs:66-92 | with unmapped leftovers passed on unchanged, every value of the range lies in exactly one piece, which sends it where the point lookup does |
| Day5.RuleOf | solutions/day5/src/main.rs:111-125 | a rule line of three numbers gives a destination and a source of equal length |
| Day5.ParseAllMapsLoop | solutions/day5/src/main.rs:101-139 | the line loop computes the maps: a header starts a new map, a rule line adds to it, any other line closes a non-empty map |
| Day5.ParseAllMapsWellFormed | solutions/day5/src/main.rs:101-139 | every map produced is non-empty |
| Day5.ParseAllMapsValid | solutions/day5/src/main.rs:101-139 | every map produced has rules with sources and destinations of equal length |
| Day5.ParseAllMapsKeepsRuleOrder | solutions/day5/src/main.rs:101-139 | when every header follows a line that is not a rule, the maps hold all rule lines, in order |
| Day6.CountWays | solutions/day6/src/main.rs:20-25 | the counting loop gives the number of holds from 1 to the time whose distance reaches the record, at most the time |
| Day6.ParseRaces | solutions/day6/src/main.rs:47-61 | the i-th time pairs with the i-th distance, as many races as the shorter list |
| Day6.ProductSnoc | solutions/day6/src/main.rs:31 | the product extends by multiplying in each new race |
| Day6.PartOne | solutions/day6/src/main.rs:16-32 | part one is the product of the races' numbers of winning holds, 1 with no race |
| Day6.KernedNumberMeaning | solutions/day6/src/main.rs:63-79 | the joined number is the text after the prefix with its whitespace removed, read as one number |
| Day6.KernedExample | solutions/day6/src/main.rs:63-79 | `Time:  7  15   30` reads as 71530 |
| Day6.PartTwo | solutions/day6/src/main.rs:34-45 | part two is the number of winning holds of the single joined race |
| Day7.RankInjective | solutions/day7/src/main.rs:75-84 | the seven types are totally ordered, each with its own rank |
| Day7.TallyMeaning | solutions/day7/src/main.rs:111-115 | the counts map each card of the hand to its number of occurrences |
| Day7.CountChars | solutions/day7/src/main.rs:113-115 | the counting loop computes those counts |
| Day7.TallySum | solutions/day7/src/main.rs:113-115 | the counts add up to the number of cards |
| Day7.MostFrequentOther | solutions/day7/src/main.rs:120-128 | the scan finds a card other than `J` with a largest count, and nothing when no such card counts |
| Day7.FoldJokers | solutions/day7/src/main.rs:117-137 | the jokers' count is added to a most frequent other card and `J` is removed; without other cards nothing changes |
| Day7.Values | solutions/day7/src/main.rs:140 | the values are the counts in the order of some enumeration of the keys |
| Day7.SortDesc | solutions/day7/src/main.rs:141 | the sorted counts are descending and a permutation of the counts |
| Day7.ClassifyByHead | solutions/day7/src/main.rs:143-151 | the type is decided by the first one or two sorted counts, in the order of the `match` |
| Day7.ClassifyIgnoresZero | solutions/day7/src/main.rs:118 | the zero count `or_default` inserts for `J` does not change the type |
| Day7.CalcScore | solutions/day7/src/main.rs:110-152 | computing the score gives the type of the hand |
| Day7.ChoiceFree | solutions/day7/src/main.rs:123-140 | the type does not depend on the map's iteration order, nor on which most frequent card the jokers join |
| Day7.ProfileSum | solutions/day7/src/main.rs:113-140 | the counts, jokers included, add up to the number of cards |
| Day7.NoJokerSame | solutions/day7/src/main.rs:117-138 | a hand without `J` scores the same with and without jokers |
| Day7.AllJokers | solutions/day7/src/main.rs:130-136 | `JJJJJ` keeps its single count of five and is five of a kind |
| Day7.FiveCardHand | solutions/day7/src/main.rs:140-151 | for five cards, the sorted counts are exactly the shape of the type they are classified as |
| Day7.ShapeInjective | solutions/day7/src/main.rs:143-151 | different types have different shapes of counts |
| Day7.CardTables | solutions/day7/src/main.rs:45-51 | both tables have 13 cards; the joker table is the other one with `J` moved last |
| Day7.JokerWeakest | solutions/day7/src/main.rs:49-51 | with jokers, `J` is weaker than every other card |
| Day7.OthersKeepOrder | solutions/day7/src/main.rs:45-51 | cards other than `J` keep their relative order in both tables |
| Day7.Comparator | solutions/day7/src/main.rs:54-72 | the comparator compares the types, then the first differing card by its position in the table |
| Day7.CompareCardsLess | solutions/day7/src/main.rs:60-70 | one hand's cards come first exactly when, at the first differing card, its card is stronger |
| Day7.CompareHandsEqual | solutions/day7/src/main.rs:54-72 | hands compare equal exactly when they have the same type and the same cards |
| Day7.CompareHandsFlip | solutions/day7/src/main.rs:54-72 | swapping the hands reverses the ordering |
| Day7.CompareHandsTransitive | solutions/day7/src/main.rs:54-72 | the ordering is transitive |
| Day7.SortHands | solutions/day7/src/main.rs:53-73 | sorting gives a permutation of the hands |
| Day7.SortHandsSorted | solutions/day7/src/main.rs:53-73 | the sorted hands are in comparator order |
| Day7.SortHandsStable | solutions/day7/src/main.rs:53-73 | hands comparing equal keep their input order, as `sort_by` guarantees |
| Day7.SortHandsSortedInput | solutions/day7/src/main.rs:53-73 | sorted input is left unchanged |
| Day7.TotalWinningsMeaning | solutions/day7/src/main.rs:36-40 | the fold weights the i-th of n sorted hands' bid by n − i |
| Day7.ParseHand | solutions/day7/src/main.rs:94-108 | a line parses exactly when it has a second token that is a number; the hand's score is the type of its cards |
| Day7.ParseHandFormatted | solutions/day7/src/main.rs:94-108 | `cards bid` parses to those cards, their type and that bid |
| Day7.FromStr | solutions/day7/src/main.rs:94-108 | the parsing method computes that parse |
| Day7.ParsedHandsScored | solutions/day7/src/main.rs:29-32 | every hand kept by `flat_map` carries the type of its cards |
| Day7.CalculateTotalWinnings | solutions/day7/src/main.rs:26-43 | the total is the rank-weighted bids of the parsed hands, sorted with the table of the part |
| Day7.PartOne | solutions/day7/src/main.rs:18-20 | part one uses the table with `J` as the jack |
| Day7.PartTwo | solutions/day7/src/main.rs:22-24 | part two uses the joker table |
| Day8.NodeOfMeaning | solutions/day8/src/main.rs:91-99 | a node line splits at its first " = " into the name and a parenthesised pair, separated by its first ", " |
| Day8.NetworkKeys | solutions/day8/src/main.rs:91-101 | the network's keys are exactly the names of the node lines |
| Day8.NetworkLastWins | solutions/day8/src/main.rs:99 | a name given twice maps to the later line's pair, as `insert` overwrites |
| Day8.NodeRows | solutions/day8/src/main.rs:87-89 | the node lines are the lines after the instructions and the blank line |
| Day8.Step | solutions/day8/src/main.rs:24-29 | a step on `L` takes the left neighbour, on any other character the right one; it exists exactly when the node is in the network |
| Day8.PosIsRemainder | solutions/day8/src/main.rs:23 | the instruction used at step n is instruction n mod their number |
| Day8.StepsToZZZ | solutions/day8/src/main.rs:19-38 | the count is the least number, at least 1, of steps from `AAA` that reaches `ZZZ` |
| Day8.PartOne | solutions/day8/src/main.rs:16-39 | part one is that least count on the parsed network |
| Day8.CycleMeasure | solutions/day8/src/main.rs:53-79 | the walk stops after the pass of the instructions that holds the second node ending in `Z`; the result is the steps from the first such node to the end of that pass |
| Day8.MeasureUnique | solutions/day8/src/main.rs:53-79 | that measure is determined by the start node |
| Day8.Multiples | solutions/day8/src/main.rs:50-81 | each start node gets its measure, and all are positive |
| Day8.PartTwo | solutions/day8/src/main.rs:41-84 | part two is the least common multiple of the measures of the start nodes |
| Day8.PartTwoOrderFree | solutions/day8/src/main.rs:44-48 | the result does not depend on the order in which the map yields the start nodes |
| Day8.PartTwoIsLeastCommonMultiple | solutions/day8/src/main.rs:83 | the result is a multiple of every measure and divides every common multiple |
| Day8.Gcd | solutions/day8/src/main.rs:106-112 | Euclid's algorithm gives 0 exactly when both numbers are 0 |
| Day8.GcdDivides | solutions/day8/src/main.rs:106-112 | the result divides both numbers |
| Day8.GcdGreatest | solutions/day8/src/main.rs:106-112 | every common divisor divides the result |
| Day8.Bezout | solutions/day8/src/main.rs:106-112 | the result is an integer combination of the two numbers |
| Day8.LcmCommonMultiple | solutions/day8/src/main.rs:114-116 | for positive numbers, `a / gcd * b` is a positive common multiple |
| Day8.LcmLeast | solutions/day8/src/main.rs:114-116 | it divides every common multiple |
| Day8.LcmOfVec | solutions/day8/src/main.rs:118-120 | the fold from 1 gives 1 for no numbers, and 0 exactly when some number is 0 |
| Day8.LcmOfVecMultiple | solutions/day8/src/main.rs:118-120 | the result is a multiple of every number |
| Day8.LcmOfVecLeast | solutions/day8/src/main.rs:118-120 | it divides every common multiple of the numbers |
| Day8.LcmOfVecOrderFree | solutions/day8/src/main.rs:118-120 | it depends only on which numbers there are |
| Day9.Differences | solutions/day9/src/main.rs:34-36 | the windows loop gives the pairwise differences, one fewer than the row |
| Day9.BuildHistory | solutions/day9/src/main.rs:28-45 | the loop builds the table: the numbers, then the rows of differences up to the first row of zeros |
| Day9.TableMeaning | solutions/day9/src/main.rs:28-45 | each row of the table is the differences of the row above; the last row is all zeros and the only such row below the numbers; there are at most two more rows than numbers |
| Day9.ForwardsIsSumOfLasts | solutions/day9/src/main.rs:47-50 | forwards, the fold is the sum of the rows' last elements |
| Day9.BackwardsIsAlternatingSum | solutions/day9/src/main.rs:47-52 | backwards, the fold is the first elements with alternating signs |
| Day9.NextValueContinues | solutions/day9/src/main.rs:49 | appending a row's extrapolated next value appends the next value of its differences |
| Day9.PreviousValueContinues | solutions/day9/src/main.rs:51 | prefixing a row's extrapolated previous value prefixes the previous value of its differences |
| Day9.ShortLinesFail | solutions/day9/src/main.rs:42-49 | a line of one number, or of two different numbers, leaves an empty row that the fold indexes |
| Day9.ExtrapolatedSum | solutions/day9/src/main.rs:23-56 | the total over the lines of the folded tables, forwards for part one and backwards for part two |

## Left out

- Reading the input file, `main` and printing are not modelled. The lines are a parameter. `inputs/src/lib.rs` is not part of this model.
- The `#[cfg(test)]` modules are not modelled: the example inputs of the puzzles are not restated.
- Fixed-width integers (`u32`, `usize`, `isize`) are not modelled; they are unbounded here. Overflowing additions, products, `1 << (n - 1)` and parses that overflow are therefore not modelled. Day 3's `number.parse()?` error is among them: a run of digits always parses here.
- Character classes are ASCII: Unicode `is_numeric`, `to_digit` and whitespace are not modelled.
- Day 5's regular expressions are not modelled as an engine; they are predicates on the line. A header is word characters, then `-to-`, then word characters, then ` map:`. A rule line is three runs of digits separated by single spaces. `\w` is read as ASCII letters, digits and `_`.
- Iteration order of `HashMap` and `HashSet` is not modelled: each is a map or set plus a chosen enumeration. The results are proved not to depend on the choice (`Day7.ChoiceFree`, `Day8.PartTwoOrderFree`).
- Panics are preconditions:
  - Day 3: a non-empty line made only of digits underflows `x - number.len()`.
  - Day 4: `unwrap` of the parse, and the index `j + 1` past the last card (`Day4.Fits`).
  - Day 5: `lines[0]`, and an odd number of seed numbers; `min().unwrap()` on no ranges is `None`.
  - Day 6: the two lines indexed, and the unwrapped joined numbers.
  - Day 7: unknown cards in `position().unwrap()`.
  - Day 8: a missing node and malformed node lines.
  - Day 9: tokens that are not integers, and folds that index an empty row.
- Day7.CalculateTotalWinnings: requires `Day7.Rankable`: every card must be in the table, and all hands must have the same number of cards. A shorter second hand would make the comparator index past its end; a shorter first hand, compared on its length only, is not modelled. `sort_by` is modelled as a stable insertion sort, `Day7.SortHands`; the library's merge sort gives the same order, because the comparator is a total order and the sort is stable.
- Day7.PartOne: requires `Day7.Rankable` with the jack table, for the same reason as Day7.CalculateTotalWinnings.
- Day7.PartTwo: requires `Day7.Rankable` with the joker table, for the same reason as Day7.CalculateTotalWinnings.
- Day8.StepsToZZZ and Day8.CycleMeasure: the walks need the target to be reached (a step count reaching it is a precondition). A walk that never ends, which the source would loop on forever, is not modelled.
- Day8.PartTwo: the start nodes, the keys ending in `A`, are a parameter with the enumeration chosen by the caller.
- Day9.LineValue: a line the source panics on has value 0; `Day9.ExtrapolatedSum` requires every line to be extrapolable, so 0 is never used there.
- Error paths that cannot occur are not modelled: `"no id part"` on days 2 and 4, and `"couldn't parse numbers"` on day 4. `split` always yields a first piece.
- Day1.PartOne and Day1.PartTwo give the sum as a `Result` instead of printing it.

## Findings

| source | as written | input that shows it | evidently intended | confidence | as-written member | corrected member |
|---|---|---|---|---|---|---|
| solutions/day1/src/main.rs:78 | the forward scan also matches reversed spellings, and the backward scan also matches forward spellings | the line `eno7` has value 17, though no 1 is written in it | forward spellings when scanning forwards, reversed spellings when scanning backwards: `eno7` is 77 | not executed | Day1.ReversedSpellingReadForwards | Day1.IntendedDigitsAreWritten |
| solutions/day3/src/main.rs:113-117 | a run of digits that ends the line is flushed while its last digit is current, so its columns are shifted one left | `*...` / `..12`: the 12 is recorded at columns 1–2 and counts as a part | the run's own columns 2–3, so the 12 is not a part | not executed | Day3.FlushShiftsNumber | Day3.IntendedRecordsRuns |
| solutions/day5/src/main.rs:92 | ranges still unmapped after the last rule are dropped | the single rule `50 98 2` and seed range 5 with length 1: part two finds no location, part one maps 5 to 5 | leftovers pass through unchanged, as unmapped values do in part one | not executed | Day5.UncoveredRangeIsDropped | Day5.StagePassingAgreesWithLookup |

The solvers above follow the source as written. Each corrected member defines the intended behaviour beside it and proves the intended property of it: `Day1.LineValueTwoIntended`, `Day3.Numbers(lines, Intended)` and `Day5.StageFromPassing`.
