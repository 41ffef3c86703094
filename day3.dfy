/** Day 3: the engine schematic. The scan of the grid records every run of
    digits as a number with its columns and row, and every character that
    is neither a digit nor `.` as a symbol. Part one adds the numbers that
    have a symbol in the box around them; part two adds, over the `*`
    symbols touching exactly two numbers, the product of those two. */
module Day3 {
  import opened Text

  datatype Number = Number(value: nat, startX: nat, endX: nat, y: nat)

  datatype Symbol = Symbol(kind: char, x: nat, y: nat)

  datatype Schematic = Schematic(numbers: seq<Number>, symbols: seq<Symbol>)

  predicate IsSymbol(c: char) { !IsDigit(c) && c != '.' }

  /** A line the scan can take: in a non-empty line made only of digits,
      the end-of-line flush subtracts past column 0. Stated as "the digits
      at the start of the line stop before its end". */
  predicate Scannable(line: string) { line == [] || RunEnd(line, 0) < |line| }

  /** How a run that reaches the end of its line is recorded: as the scan
      writes it (one column to the left), or at its own columns. */
  datatype Flush = AsWritten | Intended

  predicate AllScannable(lines: Lines, flush: Flush)
  {
    flush == AsWritten ==> forall y :: 0 <= y < |lines| ==> Scannable(lines[y])
  }

  // ---------------------------------------------------------------------
  // Runs of digits
  // ---------------------------------------------------------------------

  predicate DigitsBetween(line: string, a: int, b: int)
  {
    forall k :: a <= k < b && 0 <= k < |line| ==> IsDigit(line[k])
  }

  /** `line[a..b]` is a maximal run of digits. */
  predicate IsRun(line: string, a: int, b: int)
  {
    0 <= a < b <= |line| && DigitsBetween(line, a, b) &&
    (a == 0 || !IsDigit(line[a - 1])) && (b == |line| || !IsDigit(line[b]))
  }

  /** Column `x` is not inside a run: nothing to its left continues there. */
  predicate AtBoundary(line: string, x: int)
  {
    0 <= x <= |line| && (x == 0 || x == |line| || !IsDigit(line[x - 1]) || !IsDigit(line[x]))
  }

  /** Where the digits starting at `a` stop. */
  function RunEnd(line: string, a: nat): (b: nat)
    requires a <= |line|
    ensures a <= b <= |line| && (b == |line| || !IsDigit(line[b]))
    decreases |line| - a
  {
    if a == |line| || !IsDigit(line[a]) then a else RunEnd(line, a + 1)
  }

  lemma {:induction false} RunEndDigits(line: string, a: nat)
    requires a <= |line|
    ensures DigitsBetween(line, a, RunEnd(line, a))
    decreases |line| - a
  {
    if a < |line| && IsDigit(line[a]) {
      RunEndDigits(line, a + 1);
    }
  }

  lemma {:induction false} RunEndAt(line: string, a: nat, b: nat)
    requires a <= b <= |line| && DigitsBetween(line, a, b) && (b == |line| || !IsDigit(line[b]))
    ensures RunEnd(line, a) == b
    decreases b - a
  {
    if a < b {
      RunEndAt(line, a + 1, b);
    }
  }

  /** The flush, as written, subtracts past column 0 only for a run that
      fills its whole line. */
  predicate Flushable(line: string, a: int, b: int, flush: Flush)
  {
    flush == AsWritten && b == |line| ==> a > 0
  }

  lemma RunsFlushable(line: string, a: int, b: int, flush: Flush)
    requires IsRun(line, a, b) && (flush == AsWritten ==> Scannable(line))
    ensures Flushable(line, a, b, flush)
  {
  }

  /** The number a run is recorded as. Lines 113-119 push it at the column
      that ends it, `x`, with `start_x = x - len` and `end_x = x - 1`: for a
      run ended by a non-digit those are its own columns, but a run
      reaching the end of the line is flushed while `x` is still on its
      last digit, so both extents sit one column to the left. */
  function RunNumber(line: string, y: nat, a: nat, b: nat, flush: Flush): Number
    requires a < b <= |line| && DigitsBetween(line, a, b) && Flushable(line, a, b, flush)
  {
    var digits := line[a..b];
    assert AllDigits(digits) by {
      forall k | 0 <= k < |digits| ensures IsDigit(digits[k]) { assert digits[k] == line[a + k]; }
    }
    var v := DecimalValue(digits);
    if flush == AsWritten && b == |line| then Number(v, a - 1, b - 2, y) else Number(v, a, b - 1, y)
  }

  /** The numbers of row `y`, scanning from column `x`. */
  function RowNumbers(line: string, y: nat, x: nat, flush: Flush): seq<Number>
    requires AtBoundary(line, x) && (flush == AsWritten ==> Scannable(line))
    decreases |line| - x
  {
    if x == |line| then []
    else if !IsDigit(line[x]) then RowNumbers(line, y, x + 1, flush)
    else
      var b := RunEnd(line, x);
      RunEndDigits(line, x);
      assert IsRun(line, x, b);
      RunsFlushable(line, x, b, flush);
      [RunNumber(line, y, x, b, flush)] + RowNumbers(line, y, b, flush)
  }

  /** Flushing the run `line[a..b]`: it is the next number of the row, and
      the row goes on after the character that ended it. */
  lemma RowNumbersFlush(line: string, y: nat, a: nat, b: nat, digits: string)
    requires a < b <= |line| && AtBoundary(line, a) && digits == line[a..b] && AllDigits(digits)
    requires (b == |line| || !IsDigit(line[b])) && Scannable(line)
    ensures b == |line| ==> a > 0
    ensures AtBoundary(line, if b == |line| then b else b + 1)
    ensures RowNumbers(line, y, a, AsWritten) ==
      [Number(DecimalValue(digits), if b == |line| then a - 1 else a, if b == |line| then b - 2 else b - 1, y)] +
      RowNumbers(line, y, if b == |line| then b else b + 1, AsWritten)
  {
    assert DigitsBetween(line, a, b) by {
      forall k | a <= k < b ensures IsDigit(line[k]) { assert line[k] == digits[k - a]; }
    }
    RunEndAt(line, a, b);
    assert IsRun(line, a, b);
    RunsFlushable(line, a, b, AsWritten);
  }

  /** A column `x` that is not a digit ends the pending digits `number`,
      which started at column `start`: the number the scan pushes is the
      row's next one, and the row goes on at `x + 1`. */
  lemma FlushBefore(line: string, y: nat, start: nat, x: nat, number: string, numbers: seq<Number>)
    requires start + |number| == x < |line| && !IsDigit(line[x]) && AtBoundary(line, start) && Scannable(line)
    requires number != [] && number == line[start..x] && AllDigits(number)
    ensures ParseNat(number) == Some(DecimalValue(number)) && 1 <= x
    ensures AtBoundary(line, x + 1)
    ensures numbers + RowNumbers(line, y, start, AsWritten) ==
      (numbers + [Number(DecimalValue(number), x - |number|, x - 1, y)]) + RowNumbers(line, y, x + 1, AsWritten)
  {
    ParseNatOfDigits(number);
    RowNumbersFlush(line, y, start, x, number);
  }

  /** The last column, a digit already added to `number`, flushes it: the
      number the scan pushes, with its extents one column to the left, is
      the row's last one. */
  lemma FlushAtEnd(line: string, y: nat, start: nat, x: nat, number: string, numbers: seq<Number>)
    requires start + |number| == x + 1 && x == |line| - 1 && AtBoundary(line, start) && Scannable(line)
    requires number != [] && number == line[start..x + 1] && AllDigits(number)
    ensures ParseNat(number) == Some(DecimalValue(number)) && |number| <= x && 1 <= x
    ensures AtBoundary(line, x + 1)
    ensures numbers + RowNumbers(line, y, start, AsWritten) ==
      (numbers + [Number(DecimalValue(number), x - |number|, x - 1, y)]) + RowNumbers(line, y, x + 1, AsWritten)
  {
    ParseNatOfDigits(number);
    RowNumbersFlush(line, y, start, x + 1, number);
  }

  /** One column of the scan that does not end a number it was reading. */
  lemma SkipAt(line: string, y: nat, x: nat, numbers: seq<Number>)
    requires x < |line| && AtBoundary(line, x) && !IsDigit(line[x]) && Scannable(line)
    ensures AtBoundary(line, x + 1)
    ensures numbers + RowNumbers(line, y, x, AsWritten) == numbers + RowNumbers(line, y, x + 1, AsWritten)
  {
  }

  /** One column of the scan recording what it finds at `x`. */
  lemma SymbolAt(line: string, y: nat, x: nat, symbols: seq<Symbol>)
    requires x < |line|
    ensures IsSymbol(line[x]) ==>
      symbols + RowSymbols(line, y, x) == (symbols + [Symbol(line[x], x, y)]) + RowSymbols(line, y, x + 1)
    ensures !IsSymbol(line[x]) ==> symbols + RowSymbols(line, y, x) == symbols + RowSymbols(line, y, x + 1)
  {
    if !IsSymbol(line[x]) {
      assert RowSymbols(line, y, x) == RowSymbols(line, y, x + 1);
    }
  }

  /** The numbers of all rows, in scan order. */
  function Numbers(lines: Lines, flush: Flush): seq<Number>
    requires AllScannable(lines, flush)
    decreases |lines|
  {
    if lines == [] then []
    else
      var n := |lines| - 1;
      assert AllScannable(lines[..n], flush);
      Numbers(lines[..n], flush) + RowNumbers(lines[n], n, 0, flush)
  }

  /** The symbols of row `y` from column `x` on. */
  function RowSymbols(line: string, y: nat, x: nat): seq<Symbol>
    requires x <= |line|
    decreases |line| - x
  {
    if x == |line| then []
    else (if IsSymbol(line[x]) then [Symbol(line[x], x, y)] else []) + RowSymbols(line, y, x + 1)
  }

  /** The symbols of all rows, in scan order. */
  function Symbols(lines: Lines): seq<Symbol>
    decreases |lines|
  {
    if lines == [] then []
    else
      var n := |lines| - 1;
      Symbols(lines[..n]) + RowSymbols(lines[n], n, 0)
  }

  /** The rows before `y + 1` are those before `y` and row `y`. */
  lemma NextRow(lines: Lines, y: nat)
    requires y < |lines| && AllScannable(lines, AsWritten)
    ensures AllScannable(lines[..y], AsWritten) && AllScannable(lines[..y + 1], AsWritten)
    ensures Numbers(lines[..y + 1], AsWritten) == Numbers(lines[..y], AsWritten) + RowNumbers(lines[y], y, 0, AsWritten)
    ensures Symbols(lines[..y + 1]) == Symbols(lines[..y]) + RowSymbols(lines[y], y, 0)
  {
    assert lines[..y + 1][..y] == lines[..y];
  }

  // ---------------------------------------------------------------------
  // Schematic::from_lines
  // ---------------------------------------------------------------------

  /** `Schematic::from_lines`: the scan over the rows, each row's columns
      scanned by `ScanRow`. */
  method FromLines(lines: Lines) returns (s: Schematic)
    requires AllScannable(lines, AsWritten)
    ensures s == Schematic(Numbers(lines, AsWritten), Symbols(lines))
  {
    var numbers: seq<Number> := [];
    var symbols: seq<Symbol> := [];
    var y := 0;
    while y < |lines|
      invariant 0 <= y <= |lines|
      invariant numbers == Numbers(lines[..y], AsWritten) && symbols == Symbols(lines[..y])
    {
      numbers, symbols := ScanRow(lines[y], y, numbers, symbols);
      NextRow(lines, y);
      y := y + 1;
    }
    assert lines[..y] == lines;
    s := Schematic(numbers, symbols);
  }

  /** The body of the row loop of `Schematic::from_lines`: the scan over the
      columns of row `y` with the pending digits in `number`, pushing onto
      the numbers and symbols found so far. The three tests of each column
      (push a digit, push a symbol, flush) are arranged by the kind of the
      character, which takes the same actions in the same order. */
  method ScanRow(line: string, y: nat, numbers0: seq<Number>, symbols0: seq<Symbol>)
    returns (numbers: seq<Number>, symbols: seq<Symbol>)
    requires Scannable(line)
    ensures numbers == numbers0 + RowNumbers(line, y, 0, AsWritten)
    ensures symbols == symbols0 + RowSymbols(line, y, 0)
  {
    numbers, symbols := numbers0, symbols0;
    var number: string := [];
    var x := 0;
    ghost var start := 0;
    while x < |line|
      invariant 0 <= start <= x <= |line| && start + |number| == x
      invariant number == line[start..x] && AllDigits(number)
      invariant AtBoundary(line, start)
      invariant x == |line| ==> number == []
      invariant numbers + RowNumbers(line, y, start, AsWritten) == numbers0 + RowNumbers(line, y, 0, AsWritten)
      invariant symbols + RowSymbols(line, y, x) == symbols0 + RowSymbols(line, y, 0)
    {
      var c := line[x];
      SymbolAt(line, y, x, symbols);
      if IsDigit(c) {
        SliceExtend(line, start, x);
        AllDigitsSnoc(number, c);
        number := number + [c];
        if x == |line| - 1 {
          FlushAtEnd(line, y, start, x, number, numbers);
          var value := ParseNat(number).value;
          numbers := numbers + [Number(value, x - |number|, x - 1, y)];
          number := [];
          start := x + 1;
        }
      } else {
        if c != '.' {
          symbols := symbols + [Symbol(c, x, y)];
        }
        if number != [] {
          FlushBefore(line, y, start, x, number, numbers);
          var value := ParseNat(number).value;
          numbers := numbers + [Number(value, x - |number|, x - 1, y)];
          number := [];
        } else {
          SkipAt(line, y, x, numbers);
        }
        start := x + 1;
      }
      x := x + 1;
    }
  }

  // ---------------------------------------------------------------------
  // What the scan records
  // ---------------------------------------------------------------------

  /** `n` is how the run `line[a..b]` of row `y` is recorded. */
  predicate RecordedAs(line: string, y: nat, a: nat, b: nat, flush: Flush, n: Number)
  {
    IsRun(line, a, b) && n.y == y && n.value == DecimalValue(line[a..b]) &&
    if flush == AsWritten && b == |line| then n.startX + 1 == a && n.endX + 2 == b
    else n.startX == a && n.endX + 1 == b
  }

  lemma RunNumberRecorded(line: string, y: nat, a: nat, b: nat, flush: Flush)
    requires IsRun(line, a, b) && Flushable(line, a, b, flush)
    ensures RecordedAs(line, y, a, b, flush, RunNumber(line, y, a, b, flush))
  {
  }

  /** Two runs starting at the same column are the same run. */
  lemma RunsAgree(line: string, a: nat, b: nat, b': nat)
    requires IsRun(line, a, b) && IsRun(line, a, b')
    ensures b == b'
  {
    RunEndAt(line, a, b);
    RunEndAt(line, a, b');
  }

  /** The numbers of a row are exactly its runs from column `x` on. */
  lemma {:induction false} RowNumbersMeaning(line: string, y: nat, x: nat, flush: Flush, n: Number)
    requires AtBoundary(line, x) && (flush == AsWritten ==> Scannable(line))
    ensures n in RowNumbers(line, y, x, flush) <==> exists a: nat, b: nat :: x <= a && RecordedAs(line, y, a, b, flush, n)
    decreases |line| - x
  {
    if x == |line| {
    } else if !IsDigit(line[x]) {
      RowNumbersMeaning(line, y, x + 1, flush, n);
      if a: nat, b: nat :| x <= a && RecordedAs(line, y, a, b, flush, n) {
        assert x + 1 <= a;
      }
    } else {
      var b := RunEnd(line, x);
      RunEndDigits(line, x);
      RunsFlushable(line, x, b, flush);
      RowNumbersMeaning(line, y, b, flush, n);
      var m := RunNumber(line, y, x, b, flush);
      RunNumberRecorded(line, y, x, b, flush);
      assert RowNumbers(line, y, x, flush) == [m] + RowNumbers(line, y, b, flush);
      if a: nat, b': nat :| x <= a && RecordedAs(line, y, a, b', flush, n) {
        if a == x {
          RunsAgree(line, x, b, b');
          assert n == m;
        } else {
          assert b <= a;
        }
      }
    }
  }

  /** The numbers of the schematic are exactly the runs of its rows. */
  lemma {:induction false} NumbersMeaning(lines: Lines, flush: Flush, n: Number)
    requires AllScannable(lines, flush)
    ensures n in Numbers(lines, flush) <==>
      n.y < |lines| && exists a: nat, b: nat :: RecordedAs(lines[n.y], n.y, a, b, flush, n)
    decreases |lines|
  {
    if lines != [] {
      var k := |lines| - 1;
      assert AllScannable(lines[..k], flush);
      NumbersMeaning(lines[..k], flush, n);
      RowNumbersMeaning(lines[k], k, 0, flush, n);
      if n.y < k {
        assert lines[..k][n.y] == lines[n.y];
      }
    }
  }

  /** The symbols of a row from column `x` on. */
  lemma {:induction false} RowSymbolsMeaning(line: string, y: nat, x: nat, s: Symbol)
    requires x <= |line|
    ensures s in RowSymbols(line, y, x) <==>
      s.y == y && x <= s.x < |line| && line[s.x] == s.kind && IsSymbol(s.kind)
    decreases |line| - x
  {
    if x < |line| {
      RowSymbolsMeaning(line, y, x + 1, s);
    }
  }

  /** Every character that is neither a digit nor `.` is a symbol, with its
      column and row, and nothing else is. */
  lemma {:induction false} SymbolsMeaning(lines: Lines, s: Symbol)
    ensures s in Symbols(lines) <==>
      s.y < |lines| && s.x < |lines[s.y]| && lines[s.y][s.x] == s.kind && IsSymbol(s.kind)
    decreases |lines|
  {
    if lines != [] {
      var k := |lines| - 1;
      SymbolsMeaning(lines[..k], s);
      RowSymbolsMeaning(lines[k], k, 0, s);
      if s.y < k {
        assert lines[..k][s.y] == lines[s.y];
      }
    }
  }

  // ---------------------------------------------------------------------
  // Scan order
  // ---------------------------------------------------------------------

  /** `m` comes before `n` in row-major order and ends before `n` starts. */
  predicate NumberBefore(m: Number, n: Number) { m.y < n.y || (m.y == n.y && m.endX < n.startX) }

  predicate NumbersInOrder(ns: seq<Number>)
  {
    forall i, j :: 0 <= i < j < |ns| ==> NumberBefore(ns[i], ns[j])
  }

  predicate SymbolBefore(s: Symbol, t: Symbol) { s.y < t.y || (s.y == t.y && s.x < t.x) }

  predicate SymbolsInOrder(ss: seq<Symbol>)
  {
    forall i, j :: 0 <= i < j < |ss| ==> SymbolBefore(ss[i], ss[j])
  }

  lemma NumbersInOrderAppend(p: seq<Number>, q: seq<Number>)
    requires NumbersInOrder(p) && NumbersInOrder(q)
    requires forall i, j :: 0 <= i < |p| && 0 <= j < |q| ==> NumberBefore(p[i], q[j])
    ensures NumbersInOrder(p + q)
  {
    forall i, j | 0 <= i < j < |p + q| ensures NumberBefore((p + q)[i], (p + q)[j]) {
      if j < |p| {
        assert NumberBefore(p[i], p[j]);
      } else if i < |p| {
        assert NumberBefore(p[i], q[j - |p|]);
      } else {
        assert NumberBefore(q[i - |p|], q[j - |p|]);
      }
    }
  }

  lemma SymbolsInOrderAppend(p: seq<Symbol>, q: seq<Symbol>)
    requires SymbolsInOrder(p) && SymbolsInOrder(q)
    requires forall i, j :: 0 <= i < |p| && 0 <= j < |q| ==> SymbolBefore(p[i], q[j])
    ensures SymbolsInOrder(p + q)
  {
    forall i, j | 0 <= i < j < |p + q| ensures SymbolBefore((p + q)[i], (p + q)[j]) {
      if j < |p| {
        assert SymbolBefore(p[i], p[j]);
      } else if i < |p| {
        assert SymbolBefore(p[i], q[j - |p|]);
      } else {
        assert SymbolBefore(q[i - |p|], q[j - |p|]);
      }
    }
  }

  lemma {:induction false} RowNumbersInOrder(line: string, y: nat, x: nat, flush: Flush)
    requires AtBoundary(line, x) && (flush == AsWritten ==> Scannable(line))
    ensures NumbersInOrder(RowNumbers(line, y, x, flush))
    decreases |line| - x
  {
    if x == |line| {
    } else if !IsDigit(line[x]) {
      RowNumbersInOrder(line, y, x + 1, flush);
    } else {
      var b := RunEnd(line, x);
      RunEndDigits(line, x);
      RunsFlushable(line, x, b, flush);
      RunNumberRecorded(line, y, x, b, flush);
      var m := RunNumber(line, y, x, b, flush);
      var rest := RowNumbers(line, y, b, flush);
      RowNumbersInOrder(line, y, b, flush);
      forall j | 0 <= j < |rest| ensures NumberBefore(m, rest[j]) {
        RowNumbersMeaning(line, y, b, flush, rest[j]);
        var a: nat, b': nat :| b <= a && RecordedAs(line, y, a, b', flush, rest[j]);
        assert b < a;
      }
      NumbersInOrderAppend([m], rest);
    }
  }

  /** The numbers are recorded in row-major scan order. */
  lemma {:induction false} NumbersInOrderOfScan(lines: Lines, flush: Flush)
    requires AllScannable(lines, flush)
    ensures NumbersInOrder(Numbers(lines, flush))
    decreases |lines|
  {
    if lines != [] {
      var k := |lines| - 1;
      assert AllScannable(lines[..k], flush);
      NumbersInOrderOfScan(lines[..k], flush);
      RowNumbersInOrder(lines[k], k, 0, flush);
      var p := Numbers(lines[..k], flush);
      var q := RowNumbers(lines[k], k, 0, flush);
      forall i, j | 0 <= i < |p| && 0 <= j < |q| ensures NumberBefore(p[i], q[j]) {
        NumbersMeaning(lines[..k], flush, p[i]);
        RowNumbersMeaning(lines[k], k, 0, flush, q[j]);
      }
      NumbersInOrderAppend(p, q);
    }
  }

  lemma {:induction false} RowSymbolsInOrder(line: string, y: nat, x: nat)
    requires x <= |line|
    ensures SymbolsInOrder(RowSymbols(line, y, x))
    decreases |line| - x
  {
    if x < |line| {
      RowSymbolsInOrder(line, y, x + 1);
      var rest := RowSymbols(line, y, x + 1);
      forall j | 0 <= j < |rest| ensures SymbolBefore(Symbol(line[x], x, y), rest[j]) {
        RowSymbolsMeaning(line, y, x + 1, rest[j]);
      }
      SymbolsInOrderAppend(if IsSymbol(line[x]) then [Symbol(line[x], x, y)] else [], rest);
    }
  }

  /** The symbols are recorded in row-major scan order. */
  lemma {:induction false} SymbolsInOrderOfScan(lines: Lines)
    ensures SymbolsInOrder(Symbols(lines))
    decreases |lines|
  {
    if lines != [] {
      var k := |lines| - 1;
      SymbolsInOrderOfScan(lines[..k]);
      RowSymbolsInOrder(lines[k], k, 0);
      var p := Symbols(lines[..k]);
      var q := RowSymbols(lines[k], k, 0);
      forall i, j | 0 <= i < |p| && 0 <= j < |q| ensures SymbolBefore(p[i], q[j]) {
        SymbolsMeaning(lines[..k], p[i]);
        RowSymbolsMeaning(lines[k], k, 0, q[j]);
      }
      SymbolsInOrderAppend(p, q);
    }
  }

  // ---------------------------------------------------------------------
  // part_one: numbers with a symbol around them
  // ---------------------------------------------------------------------

  /** The schematic the scan produces. */
  function Scan(lines: Lines, flush: Flush): Schematic
    requires AllScannable(lines, flush)
  {
    Schematic(Numbers(lines, flush), Symbols(lines))
  }

  /** One less, but not below 0 (the clamped start of a search range). */
  function Lo(v: nat): nat { if v > 0 then v - 1 else 0 }

  /** `(x, y)` lies in the box of part one around `n`: from one column
      before its start to one after its end, from the row above to the row
      below, the ranges clamped at 0. */
  predicate InBox(n: Number, x: nat, y: nat)
  {
    Lo(n.startX) <= x <= n.endX + 1 && Lo(n.y) <= y <= n.y + 1
  }

  /** `n` is a part number: some symbol lies in its box. */
  predicate IsPart(n: Number, symbols: seq<Symbol>)
  {
    exists k :: 0 <= k < |symbols| && InBox(n, symbols[k].x, symbols[k].y)
  }

  function PartTest(symbols: seq<Symbol>): Number -> bool
  {
    n => IsPart(n, symbols)
  }

  function ValueOf(n: Number): nat { n.value }

  /** The part numbers, in scan order. */
  function PartNumbers(sch: Schematic): (ps: seq<Number>)
    ensures forall k :: 0 <= k < |ps| ==> ps[k] in sch.numbers && IsPart(ps[k], sch.symbols)
    ensures forall k :: 0 <= k < |sch.numbers| && IsPart(sch.numbers[k], sch.symbols) ==> sch.numbers[k] in ps
  {
    Filter(sch.numbers, PartTest(sch.symbols))
  }

  /** `part_one`: the sum of the values of the part numbers. */
  function PartOne(lines: Lines, flush: Flush): nat
    requires AllScannable(lines, flush)
  {
    Sum(Mapped(PartNumbers(Scan(lines, flush)), ValueOf))
  }

  /** A number of the schematic is a part number exactly when a character
      that is neither a digit nor `.` lies in its box on the grid. */
  lemma PartIffSymbolInBox(lines: Lines, flush: Flush, n: Number)
    requires AllScannable(lines, flush)
    ensures IsPart(n, Symbols(lines)) <==>
      exists x: nat, y: nat :: InBox(n, x, y) && y < |lines| && x < |lines[y]| && IsSymbol(lines[y][x])
  {
    var symbols := Symbols(lines);
    if k :| 0 <= k < |symbols| && InBox(n, symbols[k].x, symbols[k].y) {
      SymbolsMeaning(lines, symbols[k]);
    }
    if x: nat, y: nat :| InBox(n, x, y) && y < |lines| && x < |lines[y]| && IsSymbol(lines[y][x]) {
      var t := Symbol(lines[y][x], x, y);
      SymbolsMeaning(lines, t);
      var k :| 0 <= k < |symbols| && symbols[k] == t;
      assert InBox(n, symbols[k].x, symbols[k].y);
    }
  }

  // ---------------------------------------------------------------------
  // part_two: gear ratios
  // ---------------------------------------------------------------------

  /** `v` is within one of `c`, the range clamped at 0. */
  predicate Near(v: nat, c: nat) { Lo(c) <= v <= c + 1 }

  /** The adjacency of part two: the number's first or last column is
      within one column of the symbol, and its row within one row. */
  predicate Adjacent(s: Symbol, n: Number)
  {
    (Near(n.startX, s.x) || Near(n.endX, s.x)) && Near(n.y, s.y)
  }

  function AdjacentTest(s: Symbol): Number -> bool
  {
    n => Adjacent(s, n)
  }

  /** What a `*` contributes: the product of its adjacent numbers when
      there are exactly two of them, else 0. */
  function GearRatio(s: Symbol, numbers: seq<Number>): nat
  {
    var adjacent := Filter(numbers, AdjacentTest(s));
    if |adjacent| == 2 then adjacent[0].value * adjacent[1].value else 0
  }

  lemma GearRatioOfPair(s: Symbol, numbers: seq<Number>, i: nat, j: nat)
    requires OnlyTwo(numbers, AdjacentTest(s), i, j)
    ensures GearRatio(s, numbers) == numbers[i].value * numbers[j].value
  {
    FilterPair(numbers, AdjacentTest(s), i, j);
  }

  lemma GearRatioOtherwise(s: Symbol, numbers: seq<Number>)
    requires forall i, j :: !OnlyTwo(numbers, AdjacentTest(s), i, j)
    ensures GearRatio(s, numbers) == 0
  {
    if |Filter(numbers, AdjacentTest(s))| == 2 {
      FilterLengthTwo(numbers, AdjacentTest(s));
    }
  }

  predicate IsStar(s: Symbol) { s.kind == '*' }

  function GearOf(numbers: seq<Number>): Symbol -> nat
  {
    s => GearRatio(s, numbers)
  }

  /** The `*` symbols, in scan order. */
  function Stars(symbols: seq<Symbol>): (stars: seq<Symbol>)
    ensures forall k :: 0 <= k < |stars| ==> stars[k] in symbols && stars[k].kind == '*'
    ensures forall k :: 0 <= k < |symbols| && symbols[k].kind == '*' ==> symbols[k] in stars
  {
    Filter(symbols, IsStar)
  }

  /** `part_two`: the sum of the gear ratios of the `*` symbols. */
  function PartTwo(lines: Lines, flush: Flush): nat
    requires AllScannable(lines, flush)
  {
    var sch := Scan(lines, flush);
    Sum(Mapped(Stars(sch.symbols), GearOf(sch.numbers)))
  }

  // ---------------------------------------------------------------------
  // The end-of-line flush
  // ---------------------------------------------------------------------

  /** A `*` two columns left of a number that ends its line. */
  const ShiftExample: Lines := ["*...", "..12"]

  lemma TopRowOfShiftExample(flush: Flush)
    ensures Scannable("*...")
    ensures RowNumbers("*...", 0, 0, flush) == [] && RowSymbols("*...", 0, 0) == [Symbol('*', 0, 0)]
  {
    var top := "*...";
    assert RunEnd(top, 0) == 0;
    assert RowNumbers(top, 0, 1, flush) == [] by {
      assert RowNumbers(top, 0, 3, flush) == RowNumbers(top, 0, 4, flush) == [];
    }
    assert RowSymbols(top, 0, 1) == [] by {
      assert RowSymbols(top, 0, 3) == RowSymbols(top, 0, 4) == [];
    }
  }

  lemma BottomRowOfShiftExample(flush: Flush)
    ensures Scannable("..12")
    ensures RowNumbers("..12", 1, 0, flush) == [if flush == AsWritten then Number(12, 1, 2, 1) else Number(12, 2, 3, 1)]
    ensures RowSymbols("..12", 1, 0) == []
  {
    var bottom := "..12";
    assert RunEnd(bottom, 0) == 0;
    assert RunEnd(bottom, 2) == 4 by {
      assert RunEnd(bottom, 3) == RunEnd(bottom, 4) == 4;
    }
    assert DecimalValue(bottom[2..4]) == 12 by {
      assert bottom[2..4] == "12";
      assert DecimalValue("1") == 1;
    }
    assert RowNumbers(bottom, 1, 0, flush) == [RunNumber(bottom, 1, 2, 4, flush)] by {
      assert RowNumbers(bottom, 1, 0, flush) == RowNumbers(bottom, 1, 2, flush);
    }
    assert RowSymbols(bottom, 1, 0) == [] by {
      assert RowSymbols(bottom, 1, 2) == RowSymbols(bottom, 1, 3) == RowSymbols(bottom, 1, 4) == [];
    }
  }

  /** The scan of the example: one number and one symbol. */
  lemma ScanOfShiftExample(flush: Flush)
    ensures AllScannable(ShiftExample, flush)
    ensures Numbers(ShiftExample, flush) == [if flush == AsWritten then Number(12, 1, 2, 1) else Number(12, 2, 3, 1)]
    ensures Symbols(ShiftExample) == [Symbol('*', 0, 0)]
  {
    var top, bottom := "*...", "..12";
    TopRowOfShiftExample(flush);
    BottomRowOfShiftExample(flush);
    assert ShiftExample == [top, bottom];
    assert ShiftExample[..1] == [top];
    assert Numbers([top], flush) == RowNumbers(top, 0, 0, flush) by {
      assert [top][..0] == [];
    }
    assert Symbols([top]) == RowSymbols(top, 0, 0) by {
      assert [top][..0] == [];
    }
  }

  /** As written, the number 12 of the example, at columns 2-3 of row 1, is
      recorded at columns 1-2, which puts the `*` at column 0 in its box:
      part one counts it although no symbol touches it. */
  lemma FlushShiftsNumber()
    ensures AllScannable(ShiftExample, AsWritten)
    ensures Numbers(ShiftExample, AsWritten) == [Number(12, 1, 2, 1)]
    ensures PartOne(ShiftExample, AsWritten) == 12
  {
    ScanOfShiftExample(AsWritten);
    var n := Number(12, 1, 2, 1);
    var symbols := [Symbol('*', 0, 0)];
    assert IsPart(n, symbols) by {
      assert InBox(n, symbols[0].x, symbols[0].y);
    }
    assert PartTest(symbols)(n);
    assert PartNumbers(Scan(ShiftExample, AsWritten)) == [n];
    assert Mapped([n], ValueOf) == [12];
    assert Sum([12]) == 12 by {
      assert [12][1..] == [];
    }
  }

  /** Recording every run at its own columns: each number spans exactly its
      digits, and every run is recorded. */
  lemma IntendedRecordsRuns(lines: Lines, n: Number)
    ensures AllScannable(lines, Intended)
    ensures n in Numbers(lines, Intended) <==>
      n.y < |lines| && IsRun(lines[n.y], n.startX, n.endX + 1) &&
      n.value == DecimalValue(lines[n.y][n.startX..n.endX + 1])
  {
    NumbersMeaning(lines, Intended, n);
    if n.y < |lines| {
      RecordedIntended(lines[n.y], n);
    }
  }

  /** At its own columns, a number is recorded from exactly one run. */
  lemma RecordedIntended(line: string, n: Number)
    ensures (exists a: nat, b: nat :: RecordedAs(line, n.y, a, b, Intended, n)) <==>
      IsRun(line, n.startX, n.endX + 1) && n.value == DecimalValue(line[n.startX..n.endX + 1])
  {
    if exists a: nat, b: nat :: RecordedAs(line, n.y, a, b, Intended, n) {
      var a: nat, b: nat :| RecordedAs(line, n.y, a, b, Intended, n);
      assert a == n.startX && b == n.endX + 1;
    }
    if IsRun(line, n.startX, n.endX + 1) && n.value == DecimalValue(line[n.startX..n.endX + 1]) {
      assert RecordedAs(line, n.y, n.startX, n.endX + 1, Intended, n);
    }
  }

  /** With runs at their own columns the example has no part number. */
  lemma IntendedExample()
    ensures Numbers(ShiftExample, Intended) == [Number(12, 2, 3, 1)]
    ensures PartOne(ShiftExample, Intended) == 0
  {
    ScanOfShiftExample(Intended);
    var n := Number(12, 2, 3, 1);
    assert !IsPart(n, [Symbol('*', 0, 0)]);
    assert Filter([n], PartTest([Symbol('*', 0, 0)])) == [];
  }
}
