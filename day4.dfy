/** Day 4: scratchcards. A card holds two sets of numbers; its matches are
    the numbers in both. Part one adds up the scores (0 without a match,
    doubling with each further one); part two lets each card win copies of
    the cards after it and counts all cards in the end. */
module Day4 {
  import opened Text

  datatype Card = Card(numbers: set<nat>, winningNumbers: set<nat>)

  /** `Card::matches`: the winning numbers that are also on the card. */
  function Matches(c: Card): set<nat>
  {
    c.winningNumbers * c.numbers
  }

  function MatchCount(c: Card): nat { |Matches(c)| }

  lemma MatchesMeaning(c: Card, v: nat)
    ensures v in Matches(c) <==> v in c.winningNumbers && v in c.numbers
    ensures MatchCount(c) <= |c.numbers| && MatchCount(c) <= |c.winningNumbers|
  {
    assert Matches(c) <= c.numbers && Matches(c) <= c.winningNumbers;
    SubsetCard(Matches(c), c.numbers);
    SubsetCard(Matches(c), c.winningNumbers);
  }

  lemma {:induction false} SubsetCard(a: set<nat>, b: set<nat>)
    requires a <= b
    ensures |a| <= |b|
    decreases |b|
  {
    if a != {} {
      var v :| v in a;
      SubsetCard(a - {v}, b - {v});
    }
  }

  function Pow2(k: nat): (r: nat)
    ensures r >= 1
  {
    if k == 0 then 1 else 2 * Pow2(k - 1)
  }

  /** `Card::score`. */
  function Score(c: Card): (r: nat)
    ensures r == 0 <==> Matches(c) == {}
  {
    var m := MatchCount(c);
    if m == 0 then 0 else Pow2(m - 1)
  }

  /** One match scores 1, and each further match doubles the score. */
  lemma ScoreDoubles(c: Card, d: Card)
    requires MatchCount(c) >= 1 && MatchCount(d) == MatchCount(c) + 1
    ensures Score(d) == 2 * Score(c)
  {
  }

  lemma ScoreOfOne(c: Card)
    requires MatchCount(c) == 1
    ensures Score(c) == 1
  {
  }

  // ---------------------------------------------------------------------
  // Card::from_str
  // ---------------------------------------------------------------------

  /** The numbers of one side: the whitespace-separated tokens that parse,
      each once. */
  function NumberSet(side: string): set<nat>
  {
    Elements(ParseAll(SplitWhitespace(Trim(side))))
  }

  function Elements(xs: seq<nat>): set<nat> { set v | v in xs }

  /** A number is on a side exactly when one of its tokens parses to it. */
  lemma NumberSetMeaning(side: string, tokens: seq<string>, v: nat)
    requires tokens == SplitWhitespace(Trim(side))
    ensures v in NumberSet(side) <==> exists i :: 0 <= i < |tokens| && ParseNat(tokens[i]) == Some(v)
  {
    ParseAllMeaning(tokens, v);
  }

  /** `Card::from_str`. Splitting always yields a first piece, so only the
      second pieces can be missing. */
  function ParseCard(s: string): Result<Card>
  {
    var parts := SplitOn(s, ": ");
    if |parts| < 2 then Err("no numbers part")
    else
      var sides := SplitOn(parts[1], " | ");
      if |sides| < 2 then Err("couldn't parse winning numbers")
      else Ok(Card(NumberSet(sides[0]), NumberSet(sides[1])))
  }

  lemma ParseCardMeaning(s: string)
    ensures |SplitOn(s, ": ")| >= 2 <==> Contains(s, ": ")
    ensures !Contains(s, ": ") ==> ParseCard(s) == Err("no numbers part")
    ensures Contains(s, ": ") && !Contains(SplitOn(s, ": ")[1], " | ") ==>
      ParseCard(s) == Err("couldn't parse winning numbers")
    ensures ParseCard(s).Ok? <==> Contains(s, ": ") && Contains(SplitOn(s, ": ")[1], " | ")
  {
    SplitOnSingle(s, ": ");
    var parts := SplitOn(s, ": ");
    if |parts| >= 2 {
      SplitOnSingle(parts[1], " | ");
    }
  }

  // ---------------------------------------------------------------------
  // part_one
  // ---------------------------------------------------------------------

  /** Every line is a card (`part_one` and `part_two` unwrap the parse). */
  predicate AllCards(lines: Lines)
  {
    forall i :: 0 <= i < |lines| ==> ParseCard(lines[i]).Ok?
  }

  function Cards(lines: Lines): (cs: seq<Card>)
    requires AllCards(lines)
    ensures |cs| == |lines| && forall i :: 0 <= i < |lines| ==> Ok(cs[i]) == ParseCard(lines[i])
  {
    seq(|lines|, i requires 0 <= i < |lines| => ParseCard(lines[i]).value)
  }

  /** `part_one`: the sum of the scores. */
  function PartOne(lines: Lines): nat
    requires AllCards(lines)
  {
    Sum(Mapped(Cards(lines), Score))
  }

  /** The total is 0 exactly when no card has a match. */
  lemma PartOneMeaning(lines: Lines)
    requires AllCards(lines)
    ensures PartOne(lines) == 0 <==> forall i :: 0 <= i < |lines| ==> Matches(Cards(lines)[i]) == {}
  {
    var cs := Cards(lines);
    var scores := Mapped(cs, Score);
    SumZero(scores);
    forall i | 0 <= i < |cs| ensures scores[i] == 0 <==> Matches(cs[i]) == {} {
      assert scores[i] == Score(cs[i]);
    }
  }

  // ---------------------------------------------------------------------
  // part_two
  // ---------------------------------------------------------------------

  function MatchCounts(lines: Lines): (ms: seq<nat>)
    requires AllCards(lines)
    ensures |ms| == |lines|
  {
    Mapped(Cards(lines), MatchCount)
  }

  /** No card wins copies past the last card: the writes stay in bounds. */
  predicate Fits(ms: seq<nat>)
  {
    forall i :: 0 <= i < |ms| ==> i + ms[i] < |ms|
  }

  /** Card `i` adding its count to the cards `i + 1 ..= hi`; nothing else
      changes. */
  function AddCopies(cards: seq<nat>, i: nat, hi: nat): (r: seq<nat>)
    requires i <= hi < |cards|
    ensures |r| == |cards|
  {
    seq(|cards|, j requires 0 <= j < |cards| => if i < j <= hi then cards[j] + cards[i] else cards[j])
  }

  /** The counts once cards `0 .. k` have been processed, starting from a
      single copy of each. */
  function Counts(ms: seq<nat>, k: nat): (cards: seq<nat>)
    requires k <= |ms| && Fits(ms)
    ensures |cards| == |ms|
  {
    if k == 0 then seq(|ms|, _ => 1) else AddCopies(Counts(ms, k - 1), k - 1, k - 1 + ms[k - 1])
  }

  /** The number of copies of card `j`, as the puzzle defines it: the
      original plus one for every copy of each earlier card whose winnings
      reach `j`. */
  function Copies(ms: seq<nat>, j: nat): nat
    requires j < |ms|
    decreases j, 1, 0
  {
    1 + Won(ms, j, j)
  }

  /** The copies of card `j` won by the cards before `i`. */
  function Won(ms: seq<nat>, j: nat, i: nat): nat
    requires i <= j < |ms|
    decreases j, 0, i
  {
    if i == 0 then 0
    else Won(ms, j, i - 1) + (if j <= i - 1 + ms[i - 1] then Copies(ms, i - 1) else 0)
  }

  /** After processing cards `0 .. k`, the counts of those cards are final
      and every later card holds the copies won by them so far. */
  lemma {:induction false} CountsMeaning(ms: seq<nat>, k: nat)
    requires k <= |ms| && Fits(ms)
    ensures forall j :: 0 <= j < k ==> Counts(ms, k)[j] == Copies(ms, j)
    ensures forall j :: k <= j < |ms| ==> Counts(ms, k)[j] == 1 + Won(ms, j, k)
  {
    if k > 0 {
      CountsMeaning(ms, k - 1);
      var before := Counts(ms, k - 1);
      assert before[k - 1] == Copies(ms, k - 1);
      forall j | k <= j < |ms| ensures Counts(ms, k)[j] == 1 + Won(ms, j, k) {
        assert Counts(ms, k)[j] == before[j] + (if j <= k - 1 + ms[k - 1] then before[k - 1] else 0);
      }
    }
  }

  /** Every card ends up with at least its original copy. */
  lemma CountsAtLeastOne(ms: seq<nat>, k: nat)
    requires k <= |ms| && Fits(ms)
    ensures forall j :: 0 <= j < |ms| ==> Counts(ms, k)[j] >= 1
  {
    CountsMeaning(ms, k);
  }

  /** The count of card `i` no longer changes once the scan reaches it. */
  lemma CountFinalWhenProcessed(ms: seq<nat>, i: nat, k: nat)
    requires i < k <= |ms| && Fits(ms)
    ensures Counts(ms, k)[i] == Counts(ms, i)[i]
  {
    CountsMeaning(ms, k);
    CountsMeaning(ms, i);
  }

  /** The inner loop of `part_two`: card `i` with `m` matches adds its
      count to each of the next `m` cards. */
  method WinCopies(cards: array<nat>, i: nat, m: nat)
    requires i + m < cards.Length
    modifies cards
    ensures cards[..] == AddCopies(old(cards[..]), i, i + m)
  {
    var j := i;
    while j < i + m
      invariant i <= j <= i + m
      invariant cards[..] == AddCopies(old(cards[..]), i, j)
    {
      cards[j + 1] := cards[j + 1] + cards[i];
      j := j + 1;
    }
  }

  /** The copies of every card, by the puzzle's definition. */
  function AllCopies(ms: seq<nat>): (r: seq<nat>)
    ensures |r| == |ms|
  {
    seq(|ms|, j requires 0 <= j < |ms| => Copies(ms, j))
  }

  lemma CountsAreCopies(ms: seq<nat>)
    requires Fits(ms)
    ensures Counts(ms, |ms|) == AllCopies(ms)
  {
    CountsMeaning(ms, |ms|);
  }

  /** The loops of `part_two` over the card-count array, which starts with
      one copy of each card. */
  method CountCards(ms: seq<nat>) returns (cards: array<nat>)
    requires Fits(ms)
    ensures fresh(cards) && cards[..] == Counts(ms, |ms|)
  {
    cards := new nat[|ms|](_ => 1);
    assert cards[..] == Counts(ms, 0);
    var i := 0;
    while i < |ms|
      invariant 0 <= i <= |ms|
      invariant cards[..] == Counts(ms, i)
    {
      WinCopies(cards, i, ms[i]);
      i := i + 1;
    }
  }

  method SumOf(a: array<nat>) returns (total: nat)
    ensures total == Sum(a[..])
  {
    total := 0;
    var k := 0;
    while k < a.Length
      invariant 0 <= k <= a.Length
      invariant total == Sum(a[..k])
    {
      SumSnoc(a[..k], a[k]);
      assert a[..k + 1] == a[..k] + [a[k]];
      total := total + a[k];
      k := k + 1;
    }
    assert a[..k] == a[..];
  }

  /** `part_two`: the card-count array updated in place, then summed. */
  method PartTwo(lines: Lines) returns (total: nat)
    requires AllCards(lines) && Fits(MatchCounts(lines))
    ensures total == Sum(AllCopies(MatchCounts(lines)))
  {
    var ms := MatchCounts(lines);
    var cards := CountCards(ms);
    total := SumOf(cards);
    CountsAreCopies(ms);
  }
}
