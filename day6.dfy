/** Day 6: boat races. Holding the button for `h` of the race's `t`
    milliseconds makes the boat travel `h * (t - h)`; a hold wins when that
    reaches the record distance. Part one multiplies the numbers of winning
    holds of the races; part two reads the two lines as one race with the
    spaces between the digits removed. */
module Day6 {
  import opened Text

  datatype Race = Race(time: nat, distance: nat)

  /** Holding for `h` reaches the target. The comparison is `>=`, so a hold
      that only equals the record counts. */
  predicate Wins(r: Race, h: nat)
    requires h <= r.time
  {
    h * (r.time - h) >= r.distance
  }

  /** The winning holds among `1 ..= r.time`. */
  function WinningHolds(r: Race): set<nat>
  {
    set h | 1 <= h <= r.time && Wins(r, h)
  }

  function Ways(r: Race): nat { |WinningHolds(r)| }

  /** The winning holds below `k`. */
  function WinningHoldsBelow(r: Race, k: nat): set<nat>
  {
    set h | 1 <= h < k && h <= r.time && Wins(r, h)
  }

  lemma WinningHoldsBelowStep(r: Race, k: nat)
    requires 1 <= k <= r.time
    ensures WinningHoldsBelow(r, k + 1) ==
      WinningHoldsBelow(r, k) + (if Wins(r, k) then {k} else {})
    ensures k !in WinningHoldsBelow(r, k)
  {
  }

  /** The counting loop of `part_one` and `part_two`: the number of winning
      holds, which is at most the race's time. */
  method CountWays(r: Race) returns (ways: nat)
    ensures ways == Ways(r)
    ensures ways <= r.time
  {
    ways := 0;
    var hold := 1;
    while hold <= r.time
      invariant 1 <= hold <= r.time + 1
      invariant ways == |WinningHoldsBelow(r, hold)| && ways < hold
    {
      WinningHoldsBelowStep(r, hold);
      if hold * (r.time - hold) >= r.distance {
        ways := ways + 1;
      }
      hold := hold + 1;
    }
    assert WinningHoldsBelow(r, hold) == WinningHolds(r);
  }

  // ---------------------------------------------------------------------
  // Parsing
  // ---------------------------------------------------------------------

  /** The numbers of a line after its prefix; tokens that do not parse are
      skipped. */
  function LineNumbers(line: string, prefix: string): seq<nat>
    requires prefix != []
  {
    ParseAll(SplitWhitespace(TrimStartMatches(line, prefix)))
  }

  /** `parse_races`: the i-th time with the i-th distance, as many races as
      the shorter list has numbers. */
  function ParseRaces(lines: Lines): (races: seq<Race>)
    requires |lines| >= 2
    ensures var times, distances := LineNumbers(lines[0], "Time:"), LineNumbers(lines[1], "Distance:");
      |races| == (if |times| <= |distances| then |times| else |distances|) &&
      forall i :: 0 <= i < |races| ==> races[i] == Race(times[i], distances[i])
  {
    var times, distances := LineNumbers(lines[0], "Time:"), LineNumbers(lines[1], "Distance:");
    var n := if |times| <= |distances| then |times| else |distances|;
    seq(n, i requires 0 <= i < n => Race(times[i], distances[i]))
  }

  function Product(s: seq<nat>): (p: nat)
    ensures s == [] ==> p == 1
  {
    if s == [] then 1 else s[0] * Product(s[1..])
  }

  lemma ProductSnoc(s: seq<nat>, x: nat)
    ensures Product(s + [x]) == Product(s) * x
    decreases |s|
  {
    if s != [] {
      assert (s + [x])[1..] == s[1..] + [x];
      ProductSnoc(s[1..], x);
    }
  }

  /** `part_one`: the product of the races' numbers of winning holds, 1 when
      there is no race. */
  method PartOne(lines: Lines) returns (product: nat)
    requires |lines| >= 2
    ensures product == Product(Mapped(ParseRaces(lines), Ways))
  {
    var races := ParseRaces(lines);
    product := 1;
    var i := 0;
    while i < |races|
      invariant 0 <= i <= |races|
      invariant product == Product(Mapped(races[..i], Ways))
    {
      var ways := CountWays(races[i]);
      MappedPrefix(races, Ways, i);
      ProductSnoc(Mapped(races[..i], Ways), Ways(races[i]));
      product := product * ways;
      i := i + 1;
    }
    assert races[..i] == races;
  }

  /** The digits of a line after its prefix, with the spaces between the
      groups removed, read as one number. */
  function KernedNumber(line: string, prefix: string): Option<nat>
    requires prefix != []
  {
    ParseNat(Concat(SplitWhitespace(TrimStartMatches(line, prefix))))
  }

  /** The joined groups are the text after the prefix with its whitespace
      taken out. */
  lemma KernedNumberMeaning(line: string, prefix: string)
    requires prefix != []
    ensures KernedNumber(line, prefix) == ParseNat(RemoveWhitespace(TrimStartMatches(line, prefix)))
  {
    ConcatSplitWhitespace(TrimStartMatches(line, prefix));
  }

  /** The groups `7`, `15` and `30` after the prefix read as 71530. */
  lemma KernedExample()
    ensures KernedNumber("Time:  7  15   30", "Time:") == Some(71530)
  {
    var line := "Time:  7  15   30";
    KernedNumberMeaning(line, "Time:");
    var rest := TrimExample(line);
    var joined := JoinExample(rest);
    ReadsExample(joined);
  }

  lemma TrimExample(line: string) returns (rest: string)
    requires line == "Time:  7  15   30"
    ensures rest == "  7  15   30" && TrimStartMatches(line, "Time:") == rest
  {
    rest := "  7  15   30";
    assert line == "Time:" + rest;
    assert StartsWith(line, "Time:");
    assert line[5..] == rest;
    assert !StartsWith(rest, "Time:") by { assert rest[0] != 'T'; }
  }

  lemma JoinExample(rest: string) returns (joined: string)
    requires rest == "  7  15   30"
    ensures joined == "71530" && RemoveWhitespace(rest) == joined
  {
    var a, b, c := "  " + "7", "  " + "15", "   " + "30";
    ExampleGroups();
    GroupKept("  ", "7");
    GroupKept("  ", "15");
    GroupKept("   ", "30");
    ThreeJoined(a, b, c, "7", "15", "30");
    ExampleDigits();
    joined := "71530";
  }

  lemma ExampleGroups()
    ensures "  7  15   30" == ("  " + "7") + ("  " + "15") + ("   " + "30")
  {
  }

  lemma ExampleDigits()
    ensures "7" + "15" + "30" == "71530"
  {
  }

  predicate Blank(s: string) { forall i :: 0 <= i < |s| ==> IsWhitespace(s[i]) }

  lemma {:induction false} BlankRemoved(s: string)
    requires Blank(s)
    ensures RemoveWhitespace(s) == []
    decreases |s|
  {
    if s != [] {
      BlankRemoved(s[1..]);
    }
  }

  /** A run of whitespace then a group leaves the group. */
  lemma GroupKept(sp: string, g: string)
    requires Blank(sp) && NoWhitespace(g)
    ensures RemoveWhitespace(sp + g) == g
  {
    BlankRemoved(sp);
    RemoveWhitespaceOfToken(g);
    RemoveWhitespaceAppend(sp, g);
  }

  lemma ThreeJoined(a: string, b: string, c: string, x: string, y: string, z: string)
    requires RemoveWhitespace(a) == x && RemoveWhitespace(b) == y && RemoveWhitespace(c) == z
    ensures RemoveWhitespace(a + b + c) == x + y + z
  {
    RemoveWhitespaceAppend(a, b);
    RemoveWhitespaceAppend(a + b, c);
  }

  lemma ReadsExample(s: string)
    requires s == "71530"
    ensures ParseNat(s) == Some(71530)
  {
    var s0: string := [];
    var s1 := s0 + ['7'];
    DecimalValueAppend(s0, '7');
    var s2 := s1 + ['1'];
    DecimalValueAppend(s1, '1');
    var s3 := s2 + ['5'];
    DecimalValueAppend(s2, '5');
    var s4 := s3 + ['3'];
    DecimalValueAppend(s3, '3');
    var s5 := s4 + ['0'];
    DecimalValueAppend(s4, '0');
    assert DecimalValue(s5) == 71530;
    assert s5 == s;
    ParseNatOfDigits(s);
  }

  /** Both lines read as a single number (`parse_race_bad_kerning` unwraps
      the parse). */
  predicate Kerned(lines: Lines)
  {
    |lines| >= 2 && KernedNumber(lines[0], "Time:").Some? && KernedNumber(lines[1], "Distance:").Some?
  }

  /** `parse_race_bad_kerning`. */
  function ParseRaceBadKerning(lines: Lines): (r: Race)
    requires Kerned(lines)
  {
    Race(KernedNumber(lines[0], "Time:").value, KernedNumber(lines[1], "Distance:").value)
  }

  /** `part_two`: the winning holds of the single race the lines spell. */
  method PartTwo(lines: Lines) returns (ways: nat)
    requires Kerned(lines)
    ensures ways == Ways(ParseRaceBadKerning(lines))
  {
    ways := CountWays(ParseRaceBadKerning(lines));
  }
}
