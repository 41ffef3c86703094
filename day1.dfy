/** Day 1: calibration values. Each line contributes a two-digit number made
    of its first and its last digit; part two also reads spelled-out digit
    words. The line's characters are scanned front to back, and for the
    last digit the reversed line is scanned the same way. */
module Day1 {
  import opened Text

  // ---------------------------------------------------------------------
  // Part one: the first digit character
  // ---------------------------------------------------------------------

  /** Index of the first digit of `chars`. */
  predicate FirstDigitAt(chars: string, i: int)
  {
    0 <= i < |chars| && IsDigit(chars[i]) && forall j :: 0 <= j < i ==> !IsDigit(chars[j])
  }

  /** Index of the last digit of `chars`. */
  predicate LastDigitAt(chars: string, i: int)
  {
    0 <= i < |chars| && IsDigit(chars[i]) && forall j :: i < j < |chars| ==> !IsDigit(chars[j])
  }

  predicate HasDigit(chars: string)
  {
    exists i :: 0 <= i < |chars| && IsDigit(chars[i])
  }

  /** `first_digit`: the first digit character, or "no digit found". */
  function FirstDigit(chars: string): (r: Result<char>)
    ensures r.Ok? ==> IsDigit(r.value)
    decreases |chars|
  {
    if chars == [] then Err("no digit found")
    else if IsDigit(chars[0]) then Ok(chars[0])
    else FirstDigit(chars[1..])
  }

  /** `first_digit` finds the first digit, and fails only on a line
      without one. */
  lemma {:induction false} FirstDigitMeaning(chars: string)
    ensures FirstDigit(chars).Ok? <==> HasDigit(chars)
    ensures FirstDigit(chars).Ok? ==> exists i :: FirstDigitAt(chars, i) && chars[i] == FirstDigit(chars).value
    ensures FirstDigit(chars).Err? ==> FirstDigit(chars).msg == "no digit found"
    decreases |chars|
  {
    if chars != [] && !IsDigit(chars[0]) {
      var tail := chars[1..];
      FirstDigitMeaning(tail);
      if HasDigit(tail) {
        var i :| 0 <= i < |tail| && IsDigit(tail[i]);
        assert IsDigit(chars[i + 1]);
      }
      if HasDigit(chars) {
        var i :| 0 <= i < |chars| && IsDigit(chars[i]);
        assert i > 0 && IsDigit(tail[i - 1]);
      }
      if FirstDigit(tail).Ok? {
        var i :| FirstDigitAt(tail, i) && tail[i] == FirstDigit(tail).value;
        assert FirstDigitAt(chars, i + 1);
      }
    } else if chars != [] {
      assert FirstDigitAt(chars, 0);
    }
  }

  lemma FirstDigitOfReverse(chars: string)
    ensures FirstDigit(Reverse(chars)).Ok? <==> HasDigit(chars)
    ensures FirstDigit(Reverse(chars)).Ok? ==>
      exists i :: LastDigitAt(chars, i) && chars[i] == FirstDigit(Reverse(chars)).value
  {
    var rev := Reverse(chars);
    var n := |chars|;
    FirstDigitMeaning(rev);
    if HasDigit(chars) {
      var i :| 0 <= i < n && IsDigit(chars[i]);
      assert IsDigit(rev[n - 1 - i]);
    }
    if HasDigit(rev) {
      var i :| 0 <= i < n && IsDigit(rev[i]);
      assert IsDigit(chars[n - 1 - i]);
    }
    if FirstDigit(rev).Ok? {
      var i :| FirstDigitAt(rev, i) && rev[i] == FirstDigit(rev).value;
      forall j | n - 1 - i < j < n
        ensures !IsDigit(chars[j])
      {
        assert chars[j] == rev[n - 1 - j];
      }
      assert LastDigitAt(chars, n - 1 - i);
    }
  }

  /** A part-one line value: the first digit as tens, the last as units. */
  function LineValueOne(line: string): (r: Result<nat>)
  {
    match FirstDigit(line)
    case Err(e) => Err(e)
    case Ok(first) =>
      match FirstDigit(Reverse(line))
      case Err(e) => Err(e)
      case Ok(last) => Ok(10 * DigitValue(first) + DigitValue(last))
  }

  /** The value is the first and the last digit of the line read as a
      two-digit number; a line without digits is an error. */
  lemma LineValueOneMeaning(line: string)
    ensures LineValueOne(line).Ok? <==> HasDigit(line)
    ensures LineValueOne(line).Err? ==> LineValueOne(line).msg == "no digit found"
    ensures LineValueOne(line).Ok? ==>
      exists i, j :: FirstDigitAt(line, i) && LastDigitAt(line, j) &&
        LineValueOne(line).value == 10 * DigitValue(line[i]) + DigitValue(line[j])
    ensures LineValueOne(line).Ok? ==> LineValueOne(line).value < 100
  {
    FirstDigitMeaning(line);
    FirstDigitOfReverse(line);
    if HasDigit(line) {
      var i :| FirstDigitAt(line, i) && line[i] == FirstDigit(line).value;
      var j :| LastDigitAt(line, j) && line[j] == FirstDigit(Reverse(line)).value;
      assert LineValueOne(line).value == 10 * DigitValue(line[i]) + DigitValue(line[j]);
    }
  }

  function ValuesOne(lines: Lines): (r: seq<Result<nat>>)
    ensures |r| == |lines|
  {
    seq(|lines|, i requires 0 <= i < |lines| => LineValueOne(lines[i]))
  }

  /** Part one's answer. */
  function PartOneSpec(lines: Lines): Result<nat>
  {
    SumValues(ValuesOne(lines))
  }

  /** `part_one`: the per-line loop accumulating `sum`. */
  method PartOne(lines: Lines) returns (r: Result<nat>)
    ensures r == PartOneSpec(lines)
  {
    var vs := ValuesOne(lines);
    var sum: nat := 0;
    var i := 0;
    while i < |lines|
      invariant 0 <= i <= |lines|
      invariant SumValues(vs) == AddTo(sum, SumValues(vs[i..]))
    {
      var line := lines[i];
      SumValuesStep(vs, i, sum);
      var first := FirstDigit(line);
      if first.Err? {
        return Err(first.msg);
      }
      var last := FirstDigit(Reverse(line));
      if last.Err? {
        return Err(last.msg);
      }
      sum := sum + (10 * DigitValue(first.value) + DigitValue(last.value));
      i := i + 1;
    }
    assert vs[i..] == [];
    r := SumValues(vs);
  }

  /** Part one succeeds exactly when every line holds a digit, and then
      stays below one hundred per line. */
  lemma PartOneMeaning(lines: Lines)
    ensures PartOneSpec(lines).Ok? <==> forall i :: 0 <= i < |lines| ==> HasDigit(lines[i])
    ensures PartOneSpec(lines).Ok? ==> PartOneSpec(lines).value <= 99 * |lines|
  {
    var vs := ValuesOne(lines);
    SumValuesMeaning(vs);
    forall i | 0 <= i < |lines| ensures vs[i].Ok? <==> HasDigit(lines[i]) {
      LineValueOneMeaning(lines[i]);
    }
    if PartOneSpec(lines).Ok? {
      forall i | 0 <= i < |lines| ensures OkValues(vs)[i] <= 99 {
        LineValueOneMeaning(lines[i]);
      }
      SumAtMost(OkValues(vs), 99);
    }
  }

  // ---------------------------------------------------------------------
  // Part two: digits and spelled-out digit words
  // ---------------------------------------------------------------------

  /** A row of `DIGIT_WORDS`: a spelling, its reversal, and its digit. */
  datatype DigitWord = DigitWord(word: string, reversed: string, digit: nat)

  const DigitWords: seq<DigitWord> := [
    DigitWord("zero", "orez", 0),
    DigitWord("one", "eno", 1),
    DigitWord("two", "owt", 2),
    DigitWord("three", "eerht", 3),
    DigitWord("four", "ruof", 4),
    DigitWord("five", "evif", 5),
    DigitWord("six", "xis", 6),
    DigitWord("seven", "neves", 7),
    DigitWord("eight", "thgie", 8),
    DigitWord("nine", "enin", 9)
  ]

  /** What the scans rely on in a table of words: every spelling is
      non-empty and the second spelling of a row is the first reversed. */
  predicate ValidTable(words: seq<DigitWord>)
  {
    forall k :: 0 <= k < |words| ==> |words[k].word| >= 1 && words[k].reversed == Reverse(words[k].word)
  }

  predicate DigitsBelowTen(words: seq<DigitWord>)
  {
    forall k :: 0 <= k < |words| ==> words[k].digit < 10
  }

  /** The table lists the digits zero to nine in order, each with its
      spelling reversed, and every spelling has at least three letters. */
  lemma DigitWordsTable()
    ensures |DigitWords| == 10
    ensures forall k :: 0 <= k < 10 ==> DigitWords[k].digit == k
    ensures forall k :: 0 <= k < 10 ==> |DigitWords[k].word| >= 3
    ensures ValidTable(DigitWords) && DigitsBelowTen(DigitWords)
  {
    DigitWordsReversed();
  }

  /** Each second spelling of the table is the first one reversed. */
  lemma DigitWordsReversed()
    ensures ValidTable(DigitWords)
  {
    assert "orez" == Reverse("zero");
    assert "eno" == Reverse("one");
    assert "owt" == Reverse("two");
    assert "eerht" == Reverse("three");
    assert "ruof" == Reverse("four");
    assert "evif" == Reverse("five");
    assert "xis" == Reverse("six");
    assert "neves" == Reverse("seven");
    assert "thgie" == Reverse("eight");
    assert "enin" == Reverse("nine");
  }

  /** Which spellings a scan looks for: the solution looks for both, in
      either direction. */
  datatype Spelling = Either | ForwardOnly | ReversedOnly

  /** A table row is found in `s`. */
  predicate Matches(s: string, row: DigitWord, sp: Spelling)
  {
    match sp
    case Either => Contains(s, row.word) || Contains(s, row.reversed)
    case ForwardOnly => Contains(s, row.word)
    case ReversedOnly => Contains(s, row.reversed)
  }

  /** The inner `for` over the table from row `k` on: the digit of the
      first row found in `s`. */
  function WordFrom(s: string, words: seq<DigitWord>, k: nat, sp: Spelling): (r: Option<nat>)
    requires k <= |words|
    ensures DigitsBelowTen(words) && r.Some? ==> r.value < 10
    decreases |words| - k
  {
    if k == |words| then None
    else if Matches(s, words[k], sp) then Some(words[k].digit)
    else WordFrom(s, words, k + 1, sp)
  }

  /** Row `j` is the first row from `k` on that is found in `s`. */
  predicate FirstRow(s: string, words: seq<DigitWord>, k: int, j: int, sp: Spelling)
  {
    0 <= k <= j < |words| && Matches(s, words[j], sp) &&
    forall l :: k <= l < j ==> !Matches(s, words[l], sp)
  }

  /** The table is searched in order: the digit is that of the first row
      whose word is found, and there is none when no row is found. */
  lemma {:induction false} WordFromMeaning(s: string, words: seq<DigitWord>, k: nat, sp: Spelling)
    requires k <= |words|
    ensures WordFrom(s, words, k, sp).None? <==> forall j :: k <= j < |words| ==> !Matches(s, words[j], sp)
    ensures WordFrom(s, words, k, sp).Some? ==>
      exists j :: FirstRow(s, words, k, j, sp) && WordFrom(s, words, k, sp).value == words[j].digit
    decreases |words| - k
  {
    if k < |words| {
      if Matches(s, words[k], sp) {
        assert FirstRow(s, words, k, k, sp);
      } else {
        WordFromMeaning(s, words, k + 1, sp);
        if WordFrom(s, words, k + 1, sp).Some? {
          var j :| FirstRow(s, words, k + 1, j, sp) && WordFrom(s, words, k + 1, sp).value == words[j].digit;
          assert FirstRow(s, words, k, j, sp);
        }
      }
    }
  }

  /** The scan stops at position `i`: a digit is there or the characters
      read so far contain a table word. */
  predicate Hit(chars: string, words: seq<DigitWord>, i: int, sp: Spelling)
    requires 0 <= i < |chars|
  {
    IsDigit(chars[i]) || WordFrom(chars[..i + 1], words, 0, sp).Some?
  }

  /** The digit returned when the scan stops at `i`; the digit test comes
      first. */
  function HitValue(chars: string, words: seq<DigitWord>, i: int, sp: Spelling): (d: nat)
    requires 0 <= i < |chars| && Hit(chars, words, i, sp)
    ensures DigitsBelowTen(words) ==> d < 10
  {
    if IsDigit(chars[i]) then DigitValue(chars[i]) else WordFrom(chars[..i + 1], words, 0, sp).value
  }

  /** Result of the scan from position `i` on. */
  function ScanFrom(chars: string, words: seq<DigitWord>, i: nat, sp: Spelling): (r: Result<nat>)
    requires i <= |chars|
    ensures DigitsBelowTen(words) && r.Ok? ==> r.value < 10
    decreases |chars| - i
  {
    if i == |chars| then Err("no digit found")
    else if Hit(chars, words, i, sp) then Ok(HitValue(chars, words, i, sp))
    else ScanFrom(chars, words, i + 1, sp)
  }

  /** Position `p` is the first from `i` on where the scan stops. */
  predicate FirstHit(chars: string, words: seq<DigitWord>, i: int, p: int, sp: Spelling)
  {
    0 <= i <= p < |chars| && Hit(chars, words, p, sp) &&
    forall q :: i <= q < p ==> !Hit(chars, words, q, sp)
  }

  /** The scan returns the digit read at the first position where it
      stops, and "no digit found" when it never stops. */
  lemma {:induction false} ScanFromMeaning(chars: string, words: seq<DigitWord>, i: nat, sp: Spelling)
    requires i <= |chars|
    ensures ScanFrom(chars, words, i, sp).Ok? <==> exists p :: i <= p < |chars| && Hit(chars, words, p, sp)
    ensures ScanFrom(chars, words, i, sp).Ok? ==>
      exists p :: FirstHit(chars, words, i, p, sp) && ScanFrom(chars, words, i, sp).value == HitValue(chars, words, p, sp)
    ensures ScanFrom(chars, words, i, sp).Err? ==> ScanFrom(chars, words, i, sp).msg == "no digit found"
    decreases |chars| - i
  {
    if i < |chars| {
      if Hit(chars, words, i, sp) {
        assert FirstHit(chars, words, i, i, sp);
      } else {
        ScanFromMeaning(chars, words, i + 1, sp);
        if ScanFrom(chars, words, i + 1, sp).Ok? {
          var p :| FirstHit(chars, words, i + 1, p, sp) &&
            ScanFrom(chars, words, i + 1, sp).value == HitValue(chars, words, p, sp);
          assert FirstHit(chars, words, i, p, sp);
        }
      }
    }
  }

  /** The spec of `first_digit_maybe_from_word`, as the solution has it. */
  function DigitOrWord(chars: string): (r: Result<nat>)
    ensures r.Ok? ==> r.value < 10
  {
    DigitWordsTable();
    ScanFrom(chars, DigitWords, 0, Either)
  }

  /** `first_digit_maybe_from_word`: reads characters one at a time, pushing
      each non-digit onto `s` and looking for every word of the table (the
      solution's `DIGIT_WORDS`) in `s`. */
  method FirstDigitMaybeFromWord(chars: string, words: seq<DigitWord>) returns (r: Result<nat>)
    ensures r == ScanFrom(chars, words, 0, Either)
  {
    var s := "";
    var i := 0;
    while i < |chars|
      invariant 0 <= i <= |chars|
      invariant s == chars[..i]
      invariant ScanFrom(chars, words, 0, Either) == ScanFrom(chars, words, i, Either)
    {
      var c := chars[i];
      if IsDigit(c) {
        return Ok(DigitValue(c));
      }
      s := s + [c];
      assert s == chars[..i + 1];
      var k := 0;
      while k < |words|
        invariant 0 <= k <= |words|
        invariant WordFrom(s, words, 0, Either) == WordFrom(s, words, k, Either)
      {
        var w := words[k];
        if Contains(s, w.word) || Contains(s, w.reversed) {
          return Ok(w.digit);
        }
        k := k + 1;
      }
      i := i + 1;
    }
    r := Err("no digit found");
  }

  /** When the scan first stops at a word, that word ends at the character
      just read: a word appears in the buffer only once its last letter has
      been pushed, and it would have stopped the scan a character earlier
      otherwise. */
  lemma WordEndsAtHit(chars: string, words: seq<DigitWord>, p: nat, sp: Spelling)
    requires ValidTable(words)
    requires FirstHit(chars, words, 0, p, sp) && !IsDigit(chars[p])
    ensures exists k :: (FirstRow(chars[..p + 1], words, 0, k, sp) &&
                         words[k].digit == HitValue(chars, words, p, sp) &&
                         EndsWithRow(chars[..p + 1], words[k], sp))
  {
    var pre := chars[..p + 1];
    WordFromMeaning(pre, words, 0, sp);
    var k :| FirstRow(pre, words, 0, k, sp) && HitValue(chars, words, p, sp) == words[k].digit;
    var row := words[k];
    assert !Matches(chars[..p], row, sp) by {
      if p > 0 {
        assert !Hit(chars, words, p - 1, sp);
        assert chars[..p - 1 + 1] == chars[..p];
        WordFromMeaning(chars[..p], words, 0, sp);
      }
    }
    assert |row.reversed| == |row.word| >= 1;
    if sp != ReversedOnly && Contains(pre, row.word) {
      LastLetterCompletes(chars, p, row.word);
    } else {
      LastLetterCompletes(chars, p, row.reversed);
    }
  }

  /** The row's spelling that the scan looks for ends `s`. */
  predicate EndsWithRow(s: string, row: DigitWord, sp: Spelling)
  {
    (sp != ReversedOnly && EndsWith(s, row.word)) || (sp != ForwardOnly && EndsWith(s, row.reversed))
  }

  /** A non-empty word found in `chars[..p + 1]` but not in `chars[..p]`
      ends at `p`. */
  lemma LastLetterCompletes(chars: string, p: nat, w: string)
    requires p < |chars| && |w| >= 1
    requires Contains(chars[..p + 1], w) && !Contains(chars[..p], w)
    ensures EndsWith(chars[..p + 1], w)
  {
    var pre := chars[..p + 1];
    var at :| 0 <= at <= |pre| - |w| && OccursAt(pre, w, at);
    if at + |w| < |pre| {
      var shorter := chars[..p];
      assert shorter[at..at + |w|] == pre[at..at + |w|];
      assert OccursAt(shorter, w, at);
    }
    assert pre[|pre| - |w|..] == w;
  }

  /** The prefix of the reversed line read by the backward scan is the
      reversal of a suffix of the line. */
  lemma ReversedPrefix(line: string, i: nat)
    requires i < |line|
    ensures Reverse(line)[..i + 1] == Reverse(line[|line| - 1 - i..])
  {
  }

  lemma MatchesReverse(s: string, row: DigitWord)
    requires row.reversed == Reverse(row.word)
    ensures Matches(Reverse(s), row, Either) <==> Matches(s, row, Either)
    ensures Matches(Reverse(s), row, ReversedOnly) <==> Matches(s, row, ForwardOnly)
  {
    var w := row.word;
    ContainsReverse(s, w);
    ContainsReverse(s, Reverse(w));
    assert Reverse(Reverse(w)) == w;
  }

  /** Searching the reversed text for both spellings is the same as
      searching the text; searching it for reversed spellings is the same as
      searching the text for forward ones. */
  lemma {:induction false} WordFromReverse(s: string, words: seq<DigitWord>, k: nat)
    requires ValidTable(words) && k <= |words|
    ensures WordFrom(Reverse(s), words, k, Either) == WordFrom(s, words, k, Either)
    ensures WordFrom(Reverse(s), words, k, ReversedOnly) == WordFrom(s, words, k, ForwardOnly)
    decreases |words| - k
  {
    if k < |words| {
      MatchesReverse(s, words[k]);
      WordFromReverse(s, words, k + 1);
    }
  }

  /** The backward scan stops at position `i` of the reversed line exactly
      when the line's character `|line| - 1 - i` is a digit or the suffix
      of the line starting there holds a table word, in either spelling;
      so it finds the last digit or spelled digit of the line. */
  lemma BackwardScanReadsSuffixes(line: string, words: seq<DigitWord>, i: nat)
    requires ValidTable(words) && i < |line|
    ensures Hit(Reverse(line), words, i, Either) <==>
      IsDigit(line[|line| - 1 - i]) || WordFrom(line[|line| - 1 - i..], words, 0, Either).Some?
    ensures Hit(Reverse(line), words, i, Either) ==>
      HitValue(Reverse(line), words, i, Either) ==
        (if IsDigit(line[|line| - 1 - i]) then DigitValue(line[|line| - 1 - i])
         else WordFrom(line[|line| - 1 - i..], words, 0, Either).value)
  {
    ReversedPrefix(line, i);
    WordFromReverse(line[|line| - 1 - i..], words, 0);
  }

  /** A line value read by a forward scan and a backward scan for the
      given spellings of the table's words. */
  function LineValueScans(line: string, words: seq<DigitWord>, forward: Spelling, backward: Spelling): (r: Result<nat>)
    ensures DigitsBelowTen(words) && r.Ok? ==> r.value < 100
  {
    match ScanFrom(line, words, 0, forward)
    case Err(e) => Err(e)
    case Ok(first) =>
      match ScanFrom(Reverse(line), words, 0, backward)
      case Err(e) => Err(e)
      case Ok(last) => Ok(10 * first + last)
  }

  /** A part-two line value, as the solution computes it: both scans look
      for both spellings. */
  function LineValueTwo(line: string): (r: Result<nat>)
    ensures r.Ok? ==> r.value < 100
  {
    DigitWordsTable();
    LineValueScans(line, DigitWords, Either, Either)
  }

  /** Whatever the forward scan stops at, the backward scan also finds:
      a digit at its mirrored position, or a word from the mirror of its
      first letter on. */
  lemma HitMirrors(line: string, words: seq<DigitWord>, p: nat)
    requires ValidTable(words)
    requires p < |line| && Hit(line, words, p, Either)
    ensures exists i :: 0 <= i < |line| && Hit(Reverse(line), words, i, Either)
  {
    var n := |line|;
    var rev := Reverse(line);
    if IsDigit(line[p]) {
      assert rev[n - 1 - p] == line[p];
      assert Hit(rev, words, n - 1 - p, Either);
    } else {
      var pre := line[..p + 1];
      WordFromMeaning(pre, words, 0, Either);
      var k :| FirstRow(pre, words, 0, k, Either);
      var row := words[k];
      var w := if Contains(pre, row.word) then row.word else row.reversed;
      var at :| 0 <= at <= |pre| - |w| && OccursAt(pre, w, at);
      var suffix := line[at..];
      assert OccursAt(suffix, w, 0) by {
        assert suffix[..|w|] == pre[at..at + |w|];
      }
      assert Matches(suffix, row, Either);
      WordFromMeaning(suffix, words, 0, Either);
      var i := n - 1 - at;
      BackwardScanReadsSuffixes(line, words, i);
    }
  }

  /** A line is an error exactly when its forward scan finds neither a
      digit nor a word, and then the backward scan finds nothing either. */
  lemma LineValueTwoFails(line: string, words: seq<DigitWord>)
    requires ValidTable(words)
    ensures LineValueScans(line, words, Either, Either).Err? <==>
      forall p :: 0 <= p < |line| ==> !Hit(line, words, p, Either)
    ensures LineValueScans(line, words, Either, Either).Err? ==>
      LineValueScans(line, words, Either, Either).msg == "no digit found"
  {
    ScanFromMeaning(line, words, 0, Either);
    ScanFromMeaning(Reverse(line), words, 0, Either);
    if ScanFrom(line, words, 0, Either).Ok? {
      var p :| 0 <= p < |line| && Hit(line, words, p, Either);
      HitMirrors(line, words, p);
    }
  }

  function ValuesTwo(lines: Lines, words: seq<DigitWord>): (r: seq<Result<nat>>)
    ensures |r| == |lines|
  {
    seq(|lines|, i requires 0 <= i < |lines| => LineValueScans(lines[i], words, Either, Either))
  }

  /** Part two's answer. */
  function PartTwoSpec(lines: Lines): Result<nat>
  {
    SumValues(ValuesTwo(lines, DigitWords))
  }

  /** `part_two`: the same loop as part one over the word-aware scan. */
  method PartTwo(lines: Lines) returns (r: Result<nat>)
    ensures r == PartTwoSpec(lines)
  {
    r := SumScans(lines, DigitWords);
  }

  /** The loop of `part_two` for a given table of words. */
  method SumScans(lines: Lines, words: seq<DigitWord>) returns (r: Result<nat>)
    ensures r == SumValues(ValuesTwo(lines, words))
  {
    var vs := ValuesTwo(lines, words);
    var sum: nat := 0;
    var i := 0;
    while i < |lines|
      invariant 0 <= i <= |lines|
      invariant SumValues(vs) == AddTo(sum, SumValues(vs[i..]))
    {
      var line := lines[i];
      var first := FirstDigitMaybeFromWord(line, words);
      var last := FirstDigitMaybeFromWord(Reverse(line), words);
      ScansStep(lines, words, i, sum, first, last);
      if first.Err? {
        return Err(first.msg);
      }
      if last.Err? {
        return Err(last.msg);
      }
      sum := sum + (10 * first.value + last.value);
      i := i + 1;
    }
    assert vs[i..] == [];
    r := SumValues(vs);
  }

  /** One step of the part-two loop, given the two scans of line `i`. */
  lemma ScansStep(lines: Lines, words: seq<DigitWord>, i: nat, sum: nat, first: Result<nat>, last: Result<nat>)
    requires i < |lines|
    requires first == ScanFrom(lines[i], words, 0, Either)
    requires last == ScanFrom(Reverse(lines[i]), words, 0, Either)
    ensures var vs := ValuesTwo(lines, words);
      && (first.Err? ==> AddTo(sum, SumValues(vs[i..])) == Err(first.msg))
      && (first.Ok? && last.Err? ==> AddTo(sum, SumValues(vs[i..])) == Err(last.msg))
      && (first.Ok? && last.Ok? ==>
            AddTo(sum, SumValues(vs[i..])) == AddTo(sum + (10 * first.value + last.value), SumValues(vs[i + 1..])))
  {
    SumValuesStep(ValuesTwo(lines, words), i, sum);
  }

  /** The forward scan of `line` stops somewhere. */
  predicate ScanStops(line: string, words: seq<DigitWord>)
  {
    exists p :: 0 <= p < |line| && Hit(line, words, p, Either)
  }

  /** Part two succeeds exactly when every line holds a digit or a table
      word in either spelling. */
  lemma PartTwoMeaning(lines: Lines, words: seq<DigitWord>)
    requires ValidTable(words)
    ensures SumValues(ValuesTwo(lines, words)).Ok? <==> forall i :: 0 <= i < |lines| ==> ScanStops(lines[i], words)
  {
    var vs := ValuesTwo(lines, words);
    SumValuesMeaning(vs);
    forall i | 0 <= i < |lines|
      ensures vs[i].Ok? <==> ScanStops(lines[i], words)
    {
      LineValueTwoFails(lines[i], words);
    }
  }

  /** Each line adds at most 99. */
  lemma PartTwoBound(lines: Lines, words: seq<DigitWord>)
    requires DigitsBelowTen(words)
    ensures SumValues(ValuesTwo(lines, words)).Ok? ==> SumValues(ValuesTwo(lines, words)).value <= 99 * |lines|
  {
    var vs := ValuesTwo(lines, words);
    SumValuesMeaning(vs);
    if SumValues(vs).Ok? {
      assert forall i :: 0 <= i < |lines| ==> OkValues(vs)[i] == vs[i].value;
      SumAtMost(OkValues(vs), 99);
    }
  }

  // ---------------------------------------------------------------------
  // The forward scan also accepts reversed spellings
  // ---------------------------------------------------------------------

  /** A digit `d` is written in `line`: as a digit character, or spelled
      out forwards by a row of the table. */
  predicate Written(line: string, words: seq<DigitWord>, d: nat)
  {
    (exists i :: 0 <= i < |line| && IsDigit(line[i]) && DigitValue(line[i]) == d) ||
    (exists k :: 0 <= k < |words| && words[k].digit == d && Contains(line, words[k].word))
  }

  /** A part-two line value read as evidently intended: forward spellings on
      the forward scan, reversed spellings on the backward scan. */
  function LineValueTwoIntended(line: string): (r: Result<nat>)
    ensures r.Ok? ==> r.value < 100
  {
    DigitWordsTable();
    LineValueScans(line, DigitWords, ForwardOnly, ReversedOnly)
  }

  /** In "eno7" the forward scan stops at "eno", the reversal of "one", so
      the line reads 17 although neither a 1 nor "one" is written in it;
      reading only forward spellings forwards gives 77. */
  lemma ReversedSpellingReadForwards()
    ensures LineValueTwo("eno7") == Ok(17)
    ensures !Written("eno7", DigitWords, 1)
    ensures LineValueTwoIntended("eno7") == Ok(77)
  {
    var line := "eno7";
    var rev := Reverse(line);
    assert rev == "7one";
    ReadsEno(line);
    ReadsSevenFirst(rev, Either);
    ReadsSevenFirst(rev, ReversedOnly);
    ReadsSevenForwards(line);
    NoOneWritten(line);
  }

  /** A scan of a text starting with the digit 7 reads 7. */
  lemma ReadsSevenFirst(rev: string, sp: Spelling)
    requires rev == "7one"
    ensures ScanFrom(rev, DigitWords, 0, sp) == Ok(7)
  {
    assert IsDigit(rev[0]) && DigitValue(rev[0]) == 7;
    assert Hit(rev, DigitWords, 0, sp);
  }

  /** Looking for forward spellings only, the scan of "eno7" reaches the 7. */
  lemma ReadsSevenForwards(line: string)
    requires line == "eno7"
    ensures ScanFrom(line, DigitWords, 0, ForwardOnly) == Ok(7)
  {
    NoWordInPrefixes(line);
    assert IsDigit(line[3]) && DigitValue(line[3]) == 7;
    assert ScanFrom(line, DigitWords, 3, ForwardOnly) == Ok(7);
    assert ScanFrom(line, DigitWords, 2, ForwardOnly) == Ok(7);
    assert ScanFrom(line, DigitWords, 1, ForwardOnly) == Ok(7);
  }

  /** Neither a 1 nor "one" is written in "eno7". */
  lemma NoOneWritten(line: string)
    requires line == "eno7"
    ensures !Written(line, DigitWords, 1)
  {
    DigitWordsTable();
    assert DigitWords[1].word == "one";
    assert !Contains(line, "one") by {
      assert !OccursAt(line, "one", 0) by { assert line[0] != 'o'; }
      assert !OccursAt(line, "one", 1) by { assert line[1] != 'o'; }
    }
    assert forall i :: 0 <= i < |line| && IsDigit(line[i]) ==> i == 3;
  }

  /** A text shorter than every spelling holds no word. */
  lemma NoWordInShortText(s: string, words: seq<DigitWord>, sp: Spelling)
    requires ValidTable(words)
    requires forall k :: 0 <= k < |words| ==> |words[k].word| > |s|
    ensures WordFrom(s, words, 0, sp).None?
  {
    WordFromMeaning(s, words, 0, sp);
    forall j | 0 <= j < |words| ensures !Matches(s, words[j], sp) {
      assert |words[j].reversed| == |words[j].word|;
    }
  }

  /** No forward spelling of the table is "eno". */
  lemma NoForwardEno()
    ensures WordFrom("eno", DigitWords, 0, ForwardOnly).None?
  {
    DigitWordsTable();
    WordFromMeaning("eno", DigitWords, 0, ForwardOnly);
    forall j | 0 <= j < 10 ensures !Contains("eno", DigitWords[j].word) {
      var w := DigitWords[j].word;
      if |w| == 3 {
        assert w != "eno";
      }
    }
  }

  /** Neither scan stops before the third letter of "eno7", and the scan
      for forward spellings does not stop there either. */
  lemma NoWordInPrefixes(line: string)
    requires line == "eno7"
    ensures !Hit(line, DigitWords, 0, Either) && !Hit(line, DigitWords, 1, Either)
    ensures !Hit(line, DigitWords, 0, ForwardOnly) && !Hit(line, DigitWords, 1, ForwardOnly)
    ensures !Hit(line, DigitWords, 2, ForwardOnly)
  {
    DigitWordsTable();
    assert line[..1] == "e" && line[..2] == "en" && line[..3] == "eno";
    NoWordInShortText("e", DigitWords, Either);
    NoWordInShortText("en", DigitWords, Either);
    NoWordInShortText("e", DigitWords, ForwardOnly);
    NoWordInShortText("en", DigitWords, ForwardOnly);
    NoForwardEno();
  }

  /** The solution's forward scan of "eno7" stops at its third letter. */
  lemma ReadsEno(line: string)
    requires line == "eno7"
    ensures DigitOrWord(line) == Ok(1)
  {
    DigitWordsTable();
    NoWordInPrefixes(line);
    assert line[..3] == "eno";
    assert OccursAt("eno", "eno", 0);
    assert DigitWords[0] == DigitWord("zero", "orez", 0);
    assert DigitWords[1] == DigitWord("one", "eno", 1);
    assert !Matches("eno", DigitWords[0], Either);
    assert Matches("eno", DigitWords[1], Either);
    assert WordFrom("eno", DigitWords, 0, Either) == Some(1);
    assert ScanFrom(line, DigitWords, 2, Either) == Ok(1);
    assert ScanFrom(line, DigitWords, 1, Either) == Ok(1);
  }

  lemma ContainsInPrefix(s: string, n: nat, w: string)
    requires n <= |s| && Contains(s[..n], w)
    ensures Contains(s, w)
  {
    var at :| 0 <= at <= n - |w| && OccursAt(s[..n], w, at);
    assert s[at..at + |w|] == s[..n][at..at + |w|];
    assert OccursAt(s, w, at);
  }

  lemma ContainsInSuffix(s: string, n: nat, w: string)
    requires n <= |s| && Contains(s[n..], w)
    ensures Contains(s, w)
  {
    var at :| 0 <= at <= |s| - n - |w| && OccursAt(s[n..], w, at);
    assert s[n + at..n + at + |w|] == s[n..][at..at + |w|];
    assert OccursAt(s, w, n + at);
  }

  /** Reading forward spellings forwards finds a digit that is written in
      the line. */
  lemma {:induction false} ForwardScanReadsWritten(line: string, words: seq<DigitWord>)
    ensures ScanFrom(line, words, 0, ForwardOnly).Ok? ==>
      Written(line, words, ScanFrom(line, words, 0, ForwardOnly).value)
  {
    ScanFromMeaning(line, words, 0, ForwardOnly);
    if ScanFrom(line, words, 0, ForwardOnly).Ok? {
      var d := ScanFrom(line, words, 0, ForwardOnly).value;
      var p :| FirstHit(line, words, 0, p, ForwardOnly) && d == HitValue(line, words, p, ForwardOnly);
      if !IsDigit(line[p]) {
        WordFromMeaning(line[..p + 1], words, 0, ForwardOnly);
        var k :| FirstRow(line[..p + 1], words, 0, k, ForwardOnly) && d == words[k].digit;
        ContainsInPrefix(line, p + 1, words[k].word);
      }
    }
  }

  /** Reading reversed spellings on the reversed line finds a digit that
      is written in the line. */
  lemma {:induction false} BackwardScanReadsWritten(line: string, words: seq<DigitWord>)
    requires ValidTable(words)
    ensures ScanFrom(Reverse(line), words, 0, ReversedOnly).Ok? ==>
      Written(line, words, ScanFrom(Reverse(line), words, 0, ReversedOnly).value)
  {
    var n := |line|;
    var rev := Reverse(line);
    ScanFromMeaning(rev, words, 0, ReversedOnly);
    if ScanFrom(rev, words, 0, ReversedOnly).Ok? {
      var d := ScanFrom(rev, words, 0, ReversedOnly).value;
      var i :| FirstHit(rev, words, 0, i, ReversedOnly) && d == HitValue(rev, words, i, ReversedOnly);
      assert rev[i] == line[n - 1 - i];
      if !IsDigit(rev[i]) {
        var suffix := line[n - 1 - i..];
        ReversedPrefix(line, i);
        WordFromReverse(suffix, words, 0);
        WordFromMeaning(suffix, words, 0, ForwardOnly);
        var k :| FirstRow(suffix, words, 0, k, ForwardOnly) && d == words[k].digit;
        ContainsInSuffix(line, n - 1 - i, words[k].word);
      }
    }
  }

  /** With the intended spellings both digits of a line value are written
      in the line. */
  lemma IntendedDigitsAreWritten(line: string, words: seq<DigitWord>)
    requires ValidTable(words) && DigitsBelowTen(words)
    ensures var r := LineValueScans(line, words, ForwardOnly, ReversedOnly);
      r.Ok? ==> Written(line, words, r.value / 10) && Written(line, words, r.value % 10)
  {
    ForwardScanReadsWritten(line, words);
    BackwardScanReadsWritten(line, words);
    var r := LineValueScans(line, words, ForwardOnly, ReversedOnly);
    if r.Ok? {
      var first := ScanFrom(line, words, 0, ForwardOnly).value;
      var last := ScanFrom(Reverse(line), words, 0, ReversedOnly).value;
      assert r.value == 10 * first + last;
      assert r.value / 10 == first && r.value % 10 == last;
    }
  }
}
