/** Day 9: extrapolating sequences through their table of differences.
    Each new row is the pairwise differences of the previous one, until a
    row of zeros; folding the table from the bottom row up gives the next
    value (adding the rows' last elements) or the previous value
    (subtracting from the rows' first elements). */
module Day9 {
  import opened Text

  /** The pairwise differences of a row, one element shorter. */
  function DiffSeq(row: seq<int>): seq<int>
  {
    if row == [] then [] else seq(|row| - 1, i requires 0 <= i < |row| - 1 => row[i + 1] - row[i])
  }

  predicate AllZero(row: seq<int>) { forall i :: 0 <= i < |row| ==> row[i] == 0 }

  /** The rows below `row`: its differences, and theirs, up to and
      including the first row of zeros. */
  function Below(row: seq<int>): (rows: seq<seq<int>>)
    ensures rows != []
    decreases |row|
  {
    var d := DiffSeq(row);
    if AllZero(d) then [d] else [d] + Below(d)
  }

  /** The table the loop builds: the numbers, then the rows below them. */
  function Table(nums: seq<int>): (rows: seq<seq<int>>)
    ensures |rows| >= 2
  {
    [nums] + Below(nums)
  }

  /** The rows of the table: each one the differences of the one above,
      the last one all zeros and the first to be so after the numbers. */
  lemma {:induction false} BelowMeaning(row: seq<int>)
    ensures var rows := Below(row);
      rows[0] == DiffSeq(row) && AllZero(rows[|rows| - 1]) &&
      (forall k :: 0 < k < |rows| ==> rows[k] == DiffSeq(rows[k - 1])) &&
      (forall k :: 0 <= k < |rows| - 1 ==> !AllZero(rows[k]))
    ensures |Below(row)| <= |row| + 1
    decreases |row|
  {
    var d := DiffSeq(row);
    if !AllZero(d) {
      BelowMeaning(d);
      var rows := Below(row);
      assert rows[1..] == Below(d);
      forall k | 1 < k < |rows| ensures rows[k] == DiffSeq(rows[k - 1]) {
        assert rows[k] == Below(d)[k - 1];
      }
    }
  }

  lemma TableMeaning(nums: seq<int>)
    ensures var rows := Table(nums);
      rows[0] == nums && AllZero(rows[|rows| - 1]) &&
      (forall k :: 0 < k < |rows| ==> rows[k] == DiffSeq(rows[k - 1])) &&
      (forall k :: 0 < k < |rows| - 1 ==> !AllZero(rows[k]))
    ensures |Table(nums)| <= |nums| + 2
  {
    BelowMeaning(nums);
    var rows := Table(nums);
    assert rows[1..] == Below(nums);
    forall k | 1 < k < |rows| ensures rows[k] == DiffSeq(rows[k - 1]) {
      assert rows[k] == Below(nums)[k - 1];
    }
  }

  /** The `windows(2)` loop: the differences of `row`. */
  method Differences(row: seq<int>) returns (d: seq<int>)
    ensures |d| == if row == [] then 0 else |row| - 1
    ensures forall i :: 0 <= i < |d| ==> d[i] == row[i + 1] - row[i]
    ensures d == DiffSeq(row)
  {
    d := [];
    if row == [] {
      return;
    }
    var i := 0;
    while i < |row| - 1
      invariant 0 <= i <= |row| - 1
      invariant |d| == i && forall k :: 0 <= k < i ==> d[k] == row[k + 1] - row[k]
    {
      d := d + [row[i + 1] - row[i]];
      i := i + 1;
    }
  }

  /** The `loop` building the history: push the differences of the last
      row, stop right after pushing a row of zeros. */
  method BuildHistory(nums: seq<int>) returns (history: seq<seq<int>>)
    ensures history == Table(nums)
  {
    history := [nums];
    while true
      invariant history != []
      invariant history + Below(history[|history| - 1]) == Table(nums)
      decreases |history[|history| - 1]|
    {
      ghost var before := history;
      var last := history[|history| - 1];
      var sequence := Differences(last);
      history := history + [sequence];
      HistoryStep(before, last, sequence, Table(nums));
      if AllZero(sequence) {
        return;
      }
    }
  }

  /** Pushing the differences of the last row keeps the rows pushed and
      the rows still to come together the whole table. */
  lemma HistoryStep(history: seq<seq<int>>, last: seq<int>, d: seq<int>, table: seq<seq<int>>)
    requires history != [] && last == history[|history| - 1] && d == DiffSeq(last)
    requires history + Below(last) == table
    ensures AllZero(d) ==> history + [d] == table
    ensures !AllZero(d) ==> history + [d] + Below(d) == table
  {
    if AllZero(d) {
      assert Below(last) == [d];
    } else {
      var rest := Below(d);
      assert Below(last) == [d] + rest;
      assert history + [d] + rest == history + ([d] + rest);
    }
  }

  // ---------------------------------------------------------------------
  // The fold
  // ---------------------------------------------------------------------

  predicate NonEmptyRows(rows: seq<seq<int>>) { forall k :: 0 <= k < |rows| ==> rows[k] != [] }

  /** `history.iter().rev().fold(0, ...)`: the bottom row is folded first,
      the numbers last. */
  function Fold(rows: seq<seq<int>>, forwards: bool): int
    requires NonEmptyRows(rows)
  {
    if rows == [] then 0
    else
      var acc := Fold(rows[1..], forwards);
      if forwards then acc + rows[0][|rows[0]| - 1] else rows[0][0] - acc
  }

  function Total(xs: seq<int>): int
  {
    if xs == [] then 0 else xs[0] + Total(xs[1..])
  }

  function Sign(k: nat): int { if k % 2 == 0 then 1 else -1 }

  /** Forwards, the fold is the sum of the rows' last elements. */
  lemma {:induction false} ForwardsIsSumOfLasts(rows: seq<seq<int>>)
    requires NonEmptyRows(rows)
    ensures Fold(rows, true) == Total(seq(|rows|, k requires 0 <= k < |rows| => rows[k][|rows[k]| - 1]))
  {
    if rows != [] {
      ForwardsIsSumOfLasts(rows[1..]);
      var lasts := seq(|rows|, k requires 0 <= k < |rows| => rows[k][|rows[k]| - 1]);
      assert lasts[1..] == seq(|rows[1..]|, k requires 0 <= k < |rows[1..]| => rows[1..][k][|rows[1..][k]| - 1]);
    }
  }

  /** Backwards, the fold is `rows[0][0] - (rows[1][0] - (rows[2][0] - ...))`,
      the first elements with alternating signs. */
  lemma {:induction false} BackwardsIsAlternatingSum(rows: seq<seq<int>>)
    requires NonEmptyRows(rows)
    ensures Fold(rows, false) == Total(seq(|rows|, k requires 0 <= k < |rows| => Sign(k) * rows[k][0]))
  {
    if rows != [] {
      BackwardsIsAlternatingSum(rows[1..]);
      var firsts := seq(|rows|, k requires 0 <= k < |rows| => Sign(k) * rows[k][0]);
      var rest := seq(|rows[1..]|, k requires 0 <= k < |rows[1..]| => Sign(k) * rows[1..][k][0]);
      TotalNegated(firsts[1..], rest);
    }
  }

  lemma {:induction false} TotalNegated(xs: seq<int>, ys: seq<int>)
    requires |xs| == |ys| && forall k :: 0 <= k < |xs| ==> xs[k] == -ys[k]
    ensures Total(xs) == -Total(ys)
  {
    if xs != [] {
      TotalNegated(xs[1..], ys[1..]);
    }
  }

  /** Extending a row by its extrapolated next value extends its row of
      differences by theirs: the new value continues the whole table. */
  lemma NextValueContinues(row: seq<int>, d: seq<int>, next: int, nextBelow: int)
    requires row != [] && d == DiffSeq(row) && next == nextBelow + row[|row| - 1]
    ensures DiffSeq(row + [next]) == d + [nextBelow]
  {
    var r := row + [next];
    var e := DiffSeq(r);
    forall i | 0 <= i < |e| ensures e[i] == (d + [nextBelow])[i] {
      assert r[i] == if i < |row| then row[i] else next;
    }
  }

  /** Prefixing a row by its extrapolated previous value prefixes its row
      of differences by theirs. */
  lemma PreviousValueContinues(row: seq<int>, d: seq<int>, previous: int, previousBelow: int)
    requires row != [] && d == DiffSeq(row) && previous == row[0] - previousBelow
    ensures DiffSeq([previous] + row) == [previousBelow] + d
  {
    var r := [previous] + row;
    var e := DiffSeq(r);
    forall i | 0 <= i < |e| ensures e[i] == ([previousBelow] + d)[i] {
      if i > 0 {
        assert r[i] == row[i - 1] && r[i + 1] == row[i];
      }
    }
  }

  // ---------------------------------------------------------------------
  // extrapolated_sum
  // ---------------------------------------------------------------------

  /** Every token of the line is an integer (the parse is unwrapped). */
  predicate Parses(line: string)
  {
    forall i :: 0 <= i < |SplitWhitespace(line)| ==> ParseInt(SplitWhitespace(line)[i]).Some?
  }

  function Numbers(line: string): (nums: seq<int>)
    requires Parses(line)
    ensures |nums| == |SplitWhitespace(line)|
  {
    var tokens := SplitWhitespace(line);
    seq(|tokens|, i requires 0 <= i < |tokens| => ParseInt(tokens[i]).value)
  }

  /** A line the fold can take: its table has no empty row. */
  predicate Extrapolable(line: string)
  {
    Parses(line) && NonEmptyRows(Table(Numbers(line)))
  }

  /** A line whose differences reach zero only at the empty row makes the
      fold index an empty row: one number, or two different numbers. */
  lemma ShortLinesFail(nums: seq<int>)
    requires |nums| == 1 || (|nums| == 2 && nums[0] != nums[1])
    ensures !NonEmptyRows(Table(nums))
  {
    TableMeaning(nums);
    var rows := Table(nums);
    if |nums| == 2 {
      assert rows[1] == [nums[1] - nums[0]];
      assert rows[1][0] != 0;
      assert |rows| > 2;
      assert rows[2] == [];
    } else {
      assert rows[1] == [];
    }
  }

  /** The extrapolated value of a line. A line the fold cannot take makes
      the source panic; `0` stands in for it here, and `ExtrapolatedSum`
      requires every line to be extrapolable. */
  function LineValue(line: string, forwards: bool): int
  {
    if Extrapolable(line) then Fold(Table(Numbers(line)), forwards) else 0
  }

  function LineValues(lines: Lines, forwards: bool): (vs: seq<int>)
    ensures |vs| == |lines|
  {
    Mapped(lines, line => LineValue(line, forwards))
  }

  lemma {:induction false} TotalSnoc(xs: seq<int>, x: int)
    ensures Total(xs + [x]) == Total(xs) + x
    decreases |xs|
  {
    if xs != [] {
      assert (xs + [x])[1..] == xs[1..] + [x];
      TotalSnoc(xs[1..], x);
    }
  }

  /** `extrapolated_sum`: the sum over the lines of the extrapolated values,
      `forwards` for part one and backwards for part two. */
  method ExtrapolatedSum(lines: Lines, forwards: bool) returns (sum: int)
    requires forall i :: 0 <= i < |lines| ==> Extrapolable(lines[i])
    ensures sum == Total(LineValues(lines, forwards))
  {
    sum := 0;
    var i := 0;
    while i < |lines|
      invariant 0 <= i <= |lines|
      invariant sum == Total(LineValues(lines[..i], forwards))
    {
      var history := BuildHistory(Numbers(lines[i]));
      var value := Fold(history, forwards);
      MappedPrefix(lines, line => LineValue(line, forwards), i);
      TotalSnoc(LineValues(lines[..i], forwards), value);
      sum := sum + value;
      i := i + 1;
    }
    assert lines[..i] == lines;
  }
}
