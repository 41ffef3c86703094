/** Day 7: Camel Cards. A hand's score comes from how often each card
    occurs; hands are ranked by score, then card by card against a strength
    table, and each wins its bid times its rank. In part two `J` is a joker
    that joins the most frequent other card and is the weakest card. */
module Day7 {
  import opened Text

  /** `Score`, in declaration order: the derived ordering makes
      `FiveOfKind` the least and `HighCard` the greatest. */
  datatype Score = FiveOfKind | FourOfKind | FullHouse | ThreeOfKind | TwoPair | OnePair | HighCard

  /** The position of a score in the declaration, which the derived `Ord`
      compares. */
  function Rank(s: Score): (r: nat)
    ensures r < 7
  {
    match s
    case FiveOfKind => 0
    case FourOfKind => 1
    case FullHouse => 2
    case ThreeOfKind => 3
    case TwoPair => 4
    case OnePair => 5
    case HighCard => 6
  }

  lemma RankInjective(a: Score, b: Score)
    ensures Rank(a) == Rank(b) <==> a == b
  {
  }

  // ---------------------------------------------------------------------
  // Counting the cards
  // ---------------------------------------------------------------------

  type Counts = map<char, nat>

  /** The map the counting loop builds: one entry per distinct card. */
  function Tally(cards: seq<char>): (m: Counts)
    ensures forall c :: c in m <==> c in cards
  {
    if cards == [] then map[]
    else
      var n := |cards| - 1;
      var m := Tally(cards[..n]);
      m[cards[n] := (if cards[n] in m then m[cards[n]] else 0) + 1]
  }

  /** Each card of the hand is a key, counted as often as it occurs. */
  lemma {:induction false} TallyMeaning(cards: seq<char>)
    ensures forall c :: c in Tally(cards) <==> c in cards
    ensures forall c :: c in Tally(cards) ==> Tally(cards)[c] == multiset(cards)[c] && Tally(cards)[c] >= 1
  {
    if cards != [] {
      var n := |cards| - 1;
      TallyMeaning(cards[..n]);
      assert cards == cards[..n] + [cards[n]];
    }
  }

  /** The `for c in cards` loop: `*char_counts.entry(c).or_insert(0) += 1`. */
  method CountChars(cards: seq<char>) returns (counts: Counts)
    ensures counts == Tally(cards)
  {
    counts := map[];
    var i := 0;
    while i < |cards|
      invariant 0 <= i <= |cards| && counts == Tally(cards[..i])
    {
      var c := cards[i];
      var old_count := if c in counts then counts[c] else 0;
      TallyPrefix(cards, i, counts, c, old_count);
      counts := counts[c := old_count + 1];
      i := i + 1;
    }
    assert cards[..i] == cards;
  }

  /** Counting one more card adds one to its entry. */
  lemma TallyPrefix(cards: seq<char>, i: nat, counts: Counts, c: char, n: nat)
    requires i < |cards| && c == cards[i] && counts == Tally(cards[..i])
    requires n == if c in counts then counts[c] else 0
    ensures Tally(cards[..i + 1]) == counts[c := n + 1]
  {
    var p := cards[..i + 1];
    assert p[..i] == cards[..i];
    assert p[i] == c;
  }

  predicate Distinct<T(==)>(s: seq<T>) { forall i, j :: 0 <= i < j < |s| ==> s[i] != s[j] }

  /** The distinct cards, in order of first appearance. */
  function Dedup(cards: seq<char>): (r: seq<char>)
    ensures Distinct(r) && forall c :: c in r <==> c in cards
  {
    if cards == [] then []
    else
      var n := |cards| - 1;
      var d := Dedup(cards[..n]);
      assert forall c :: c in cards <==> c in cards[..n] || c == cards[n];
      if cards[n] in d then d else d + [cards[n]]
  }

  /** `keys` lists the keys of `m`, each once: one possible iteration
      order of the map. */
  predicate Enumerates(keys: seq<char>, m: Counts)
  {
    Distinct(keys) && (forall i :: 0 <= i < |keys| ==> keys[i] in m) && (forall k :: k in m ==> k in keys)
  }

  /** The values of `m` in the order of `keys`. */
  function ValuesIn(m: Counts, keys: seq<char>): (vs: seq<nat>)
    ensures |vs| == |keys| && forall i :: 0 <= i < |keys| && keys[i] in m ==> vs[i] == m[keys[i]]
  {
    seq(|keys|, i requires 0 <= i < |keys| => if keys[i] in m then m[keys[i]] else 0)
  }

  /** A list of distinct keys holds each of them once. */
  lemma {:induction false} DistinctMultiset(s: seq<char>, x: char)
    requires Distinct(s)
    ensures multiset(s)[x] == if x in s then 1 else 0
  {
    if s != [] {
      var n := |s| - 1;
      DistinctMultiset(s[..n], x);
      assert s == s[..n] + [s[n]];
    }
  }

  /** Two iteration orders of a map list the same keys. */
  lemma EnumerationsPermute(m: Counts, k1: seq<char>, k2: seq<char>)
    requires Enumerates(k1, m) && Enumerates(k2, m)
    ensures multiset(k1) == multiset(k2)
  {
    forall x ensures multiset(k1)[x] == multiset(k2)[x] {
      DistinctMultiset(k1, x);
      DistinctMultiset(k2, x);
    }
  }

  /** Listing the same keys in another order lists the same values in
      another order. */
  lemma {:induction false} ValuesPermute(m: Counts, k1: seq<char>, k2: seq<char>)
    requires (forall i :: 0 <= i < |k1| ==> k1[i] in m) && (forall i :: 0 <= i < |k2| ==> k2[i] in m)
    requires multiset(k1) == multiset(k2)
    ensures multiset(ValuesIn(m, k1)) == multiset(ValuesIn(m, k2))
    decreases |k1|
  {
    if k1 != [] {
      var n := |k1| - 1;
      var x := k1[n];
      assert x in multiset(k2);
      var j :| 0 <= j < |k2| && k2[j] == x;
      var rest := k2[..j] + k2[j + 1..];
      RemoveAt(k1, n);
      RemoveAt(k2, j);
      assert k1[..n] + k1[n + 1..] == k1[..n];
      MultisetCancel(multiset(k1[..n]), multiset(rest), x);
      ValuesPermute(m, k1[..n], rest);
      ValuesRemoveAt(m, k1, n);
      ValuesRemoveAt(m, k2, j);
    }
  }

  lemma MultisetCancel<T>(a: multiset<T>, b: multiset<T>, x: T)
    requires a + multiset{x} == b + multiset{x}
    ensures a == b
  {
    assert forall y :: a[y] == (a + multiset{x})[y] - multiset{x}[y];
    assert forall y :: b[y] == (b + multiset{x})[y] - multiset{x}[y];
  }

  /** Taking out the key at `j` takes its value out of the values. */
  lemma ValuesRemoveAt(m: Counts, keys: seq<char>, j: nat)
    requires (forall i :: 0 <= i < |keys| ==> keys[i] in m) && j < |keys|
    ensures multiset(ValuesIn(m, keys)) == multiset(ValuesIn(m, keys[..j] + keys[j + 1..])) + multiset{m[keys[j]]}
  {
    var vs := ValuesIn(m, keys);
    RemoveAt(vs, j);
    assert ValuesIn(m, keys[..j] + keys[j + 1..]) == vs[..j] + vs[j + 1..];
  }

  /** Taking out the element at `j` takes it out of the multiset. */
  lemma RemoveAt<T>(s: seq<T>, j: nat)
    requires j < |s|
    ensures multiset(s) == multiset(s[..j] + s[j + 1..]) + multiset{s[j]}
  {
    assert s == s[..j] + [s[j]] + s[j + 1..];
  }

  // ---------------------------------------------------------------------
  // Sorting the counts
  // ---------------------------------------------------------------------

  predicate Descending(s: seq<nat>) { forall i, j :: 0 <= i < j < |s| ==> s[i] >= s[j] }

  function InsertDesc(x: nat, s: seq<nat>): (r: seq<nat>)
    requires Descending(s)
    ensures Descending(r) && multiset(r) == multiset(s) + multiset{x} && |r| == |s| + 1
  {
    if s == [] || x >= s[0] then [x] + s
    else
      var t := InsertDesc(x, s[1..]);
      assert s == [s[0]] + s[1..];
      BoundedByPermutation(t, s[1..] + [x], s[0]);
      ConsDescending(s[0], t);
      [s[0]] + t
  }

  /** A permutation of a list bounded by `b` is bounded by `b`. */
  lemma BoundedByPermutation(t: seq<nat>, u: seq<nat>, b: nat)
    requires multiset(t) == multiset(u) && forall i :: 0 <= i < |u| ==> u[i] <= b
    ensures forall i :: 0 <= i < |t| ==> t[i] <= b
  {
    forall i | 0 <= i < |t| ensures t[i] <= b {
      assert t[i] in multiset(u);
    }
  }

  lemma ConsDescending(h: nat, t: seq<nat>)
    requires Descending(t) && forall i :: 0 <= i < |t| ==> t[i] <= h
    ensures Descending([h] + t)
  {
  }

  /** `counts.sort_by(|c1, c2| c2.cmp(c1))`: the counts from largest to
      smallest. */
  function SortDesc(xs: seq<nat>): (r: seq<nat>)
    ensures Descending(r) && multiset(r) == multiset(xs) && |r| == |xs|
  {
    if xs == [] then []
    else
      assert xs == [xs[0]] + xs[1..];
      InsertDesc(xs[0], SortDesc(xs[1..]))
  }

  lemma DescendingHead(s: seq<nat>, j: nat)
    requires Descending(s) && j < |s|
    ensures s[0] >= s[j]
  {
    if j > 0 {
      assert s[0] >= s[j];
    }
  }

  lemma HeadTail<T>(s: seq<T>)
    requires s != []
    ensures multiset(s) == multiset(s[1..]) + multiset{s[0]}
  {
    assert s == [s[0]] + s[1..];
  }

  /** A descending list is fixed by its elements: sorting has one
      answer. */
  lemma {:induction false} SortedUnique(a: seq<nat>, b: seq<nat>)
    requires Descending(a) && Descending(b) && multiset(a) == multiset(b)
    ensures a == b
    decreases |a|
  {
    if a != [] {
      assert |multiset(a)| == |a| && |multiset(b)| == |b|;
      assert a[0] in multiset(b) && b[0] in multiset(a);
      var j :| 0 <= j < |b| && b[j] == a[0];
      var i :| 0 <= i < |a| && a[i] == b[0];
      DescendingHead(b, j);
      DescendingHead(a, i);
      HeadTail(a);
      HeadTail(b);
      MultisetCancel(multiset(a[1..]), multiset(b[1..]), a[0]);
      SortedUnique(a[1..], b[1..]);
    }
  }

  /** The order the counts arrive in does not matter: only which counts
      there are. */
  lemma SortPermutationFree(xs: seq<nat>, ys: seq<nat>)
    requires multiset(xs) == multiset(ys)
    ensures SortDesc(xs) == SortDesc(ys) && Sum(xs) == Sum(ys)
  {
    SortedUnique(SortDesc(xs), SortDesc(ys));
    SumSortDesc(xs);
    SumSortDesc(ys);
  }

  /** Sorting keeps the total. */
  lemma {:induction false} SumSortDesc(xs: seq<nat>)
    ensures Sum(SortDesc(xs)) == Sum(xs)
  {
    if xs != [] {
      SumSortDesc(xs[1..]);
      SumInsertDesc(xs[0], SortDesc(xs[1..]));
    }
  }

  lemma {:induction false} SumInsertDesc(x: nat, s: seq<nat>)
    requires Descending(s)
    ensures Sum(InsertDesc(x, s)) == x + Sum(s)
  {
    if s != [] && x < s[0] {
      SumInsertDesc(x, s[1..]);
    }
  }

  // ---------------------------------------------------------------------
  // Classification
  // ---------------------------------------------------------------------

  /** `slice::starts_with`. */
  predicate Begins(c: seq<nat>, p: seq<nat>) { |p| <= |c| && forall i :: 0 <= i < |p| ==> c[i] == p[i] }

  /** The `match` on the sorted counts: the first guard that holds. */
  function Classify(c: seq<nat>): Score
  {
    if Begins(c, [5]) then FiveOfKind
    else if Begins(c, [4]) then FourOfKind
    else if Begins(c, [3, 2]) then FullHouse
    else if Begins(c, [3]) then ThreeOfKind
    else if Begins(c, [2, 2]) then TwoPair
    else if Begins(c, [2]) then OnePair
    else HighCard
  }

  /** The guards only look at the two largest counts. */
  lemma ClassifyByHead(c: seq<nat>)
    ensures Classify(c) ==
      if c == [] then HighCard
      else if c[0] == 5 then FiveOfKind
      else if c[0] == 4 then FourOfKind
      else if c[0] == 3 && |c| >= 2 && c[1] == 2 then FullHouse
      else if c[0] == 3 then ThreeOfKind
      else if c[0] == 2 && |c| >= 2 && c[1] == 2 then TwoPair
      else if c[0] == 2 then OnePair
      else HighCard
  {
    if c != [] {
      BeginsOne(c, 5);
      BeginsOne(c, 4);
      BeginsOne(c, 3);
      BeginsOne(c, 2);
      BeginsTwo(c, 3, 2);
      BeginsTwo(c, 2, 2);
    }
  }

  lemma BeginsOne(c: seq<nat>, a: nat)
    requires c != []
    ensures Begins(c, [a]) <==> c[0] == a
  {
    if c[0] == a {
      assert forall i :: 0 <= i < 1 ==> c[i] == [a][i];
    }
  }

  lemma BeginsTwo(c: seq<nat>, a: nat, b: nat)
    requires c != []
    ensures Begins(c, [a, b]) <==> |c| >= 2 && c[0] == a && c[1] == b
  {
    if |c| >= 2 && c[0] == a && c[1] == b {
      assert forall i :: 0 <= i < 2 ==> c[i] == [a, b][i];
    }
  }

  /** A count of 0 at the end (the `J` entry `or_default` inserts) never
      changes the classification. */
  lemma ClassifyIgnoresZero(c: seq<nat>)
    ensures Classify(c + [0]) == Classify(c)
  {
    BeginsIgnoresZero(c, [5]);
    BeginsIgnoresZero(c, [4]);
    BeginsIgnoresZero(c, [3, 2]);
    BeginsIgnoresZero(c, [3]);
    BeginsIgnoresZero(c, [2, 2]);
    BeginsIgnoresZero(c, [2]);
  }

  lemma BeginsIgnoresZero(c: seq<nat>, p: seq<nat>)
    requires p != [] && p[|p| - 1] != 0
    ensures Begins(c + [0], p) <==> Begins(c, p)
  {
    if |p| == |c| + 1 {
      assert (c + [0])[|p| - 1] == 0;
    }
  }

  // ---------------------------------------------------------------------
  // Hand::calc_score
  // ---------------------------------------------------------------------

  /** `keys` without `x`. */
  function Without(keys: seq<char>, x: char): (r: seq<char>)
    ensures forall c :: c in r <==> c in keys && c != x
    ensures Distinct(keys) ==> Distinct(r)
  {
    if keys == [] then []
    else if keys[0] == x then Without(keys[1..], x)
    else
      var rest := Without(keys[1..], x);
      assert Distinct(keys) ==> keys[0] !in keys[1..];
      [keys[0]] + rest
  }

  /** The counts the map `m` (listed by `keys`) holds when `values()`
      reads them. Without jokers: each card's count. With jokers and no
      `J`: the same and the 0 that `or_default` stores for `J`. With a `J`:
      the other cards' counts, the largest raised by the number of jokers
      (whichever card holds it), or the jokers' count alone when there is
      no other card. */
  function FinalCounts(m: Counts, keys: seq<char>, jokers: bool): seq<nat>
  {
    if !jokers then ValuesIn(m, keys)
    else if 'J' !in m then ValuesIn(m, keys) + [0]
    else JoinLargest(ValuesIn(m, Without(keys, 'J')), m['J'])
  }

  /** The other cards' counts with `jokers` added to the largest one; just
      the jokers when there is no other card. */
  function JoinLargest(others: seq<nat>, jokers: nat): (r: seq<nat>)
    ensures |r| == if others == [] then 1 else |others|
  {
    if others == [] then [jokers]
    else
      var p := SortDesc(others);
      [p[0] + jokers] + p[1..]
  }

  /** The sorted counts the classification looks at. */
  function Profile(cards: seq<char>, jokers: bool): (p: seq<nat>)
    ensures Descending(p)
  {
    SortDesc(FinalCounts(Tally(cards), Dedup(cards), jokers))
  }

  /** The score of a hand, whatever order the map hands its entries out
      in. */
  function ScoreOf(cards: seq<char>, jokers: bool): Score
  {
    Classify(Profile(cards, jokers))
  }

  /** The map's key lists in first-appearance order. */
  lemma {:induction false} TallyEnumerations(cards: seq<char>)
    ensures Enumerates(Dedup(cards), Tally(cards))
  {
    TallyMeaning(cards);
  }

  /** The counts, listed by distinct card, add up to the number of
      cards. */
  lemma {:induction false} TallySum(cards: seq<char>)
    ensures Sum(ValuesIn(Tally(cards), Dedup(cards))) == |cards|
  {
    if cards != [] {
      var n := |cards| - 1;
      assert cards == cards[..n] + [cards[n]];
      TallySum(cards[..n]);
      TallyStep(cards[..n], cards[n]);
    }
  }

  /** One more card adds one to the total of the counts. */
  lemma {:induction false} TallyStep(init: seq<char>, c: char)
    ensures Sum(ValuesIn(Tally(init + [c]), Dedup(init + [c]))) == Sum(ValuesIn(Tally(init), Dedup(init))) + 1
  {
    var cards := init + [c];
    assert cards[..|init|] == init;
    TallyMeaning(init);
    var m, d := Tally(init), Dedup(init);
    assert Tally(cards) == m[c := (if c in m then m[c] else 0) + 1];
    assert Dedup(cards) == if c in d then d else d + [c];
    if c in init {
      BumpOld(m, d, c);
    } else {
      ValuesUpdateNew(m, d, c, 1);
      SumSnoc(ValuesIn(m, d), 1);
    }
  }

  lemma {:induction false} BumpOld(m: Counts, d: seq<char>, c: char)
    requires (forall k :: 0 <= k < |d| ==> d[k] in m) && Distinct(d) && c in d
    ensures Sum(ValuesIn(m[c := m[c] + 1], d)) == Sum(ValuesIn(m, d)) + 1
  {
    var i :| 0 <= i < |d| && d[i] == c;
    var vs := ValuesIn(m, d);
    ValuesUpdateOld(m, d, i, vs[i] + 1);
    SumBump(vs, i);
  }

  lemma ValuesUpdateOld(m: Counts, keys: seq<char>, i: nat, v: nat)
    requires (forall k :: 0 <= k < |keys| ==> keys[k] in m) && Distinct(keys) && i < |keys|
    ensures ValuesIn(m[keys[i] := v], keys) == ValuesIn(m, keys)[i := v]
  {
  }

  lemma ValuesUpdateNew(m: Counts, keys: seq<char>, c: char, v: nat)
    requires (forall k :: 0 <= k < |keys| ==> keys[k] in m) && c !in keys
    ensures ValuesIn(m[c := v], keys + [c]) == ValuesIn(m, keys) + [v]
  {
  }

  lemma {:induction false} SumBump(s: seq<nat>, i: nat)
    requires i < |s|
    ensures Sum(s[i := s[i] + 1]) == Sum(s) + 1
    decreases i
  {
    if i > 0 {
      SumBump(s[1..], i - 1);
      assert s[i := s[i] + 1][1..] == s[1..][i - 1 := s[i] + 1];
    }
  }

  /** The loop over `char_counts.iter()`: a key other than `J` with the
      largest count, or `None` when every other key counts 0. The map is
      visited in an arbitrary order, so which of several equally large
      counts is picked is left open. */
  method MostFrequentOther(counts: Counts) returns (highest: Option<char>)
    ensures highest.None? <==> forall k :: k in counts && k != 'J' ==> counts[k] == 0
    ensures highest.Some? ==> highest.value in counts && highest.value != 'J' && counts[highest.value] > 0
    ensures highest.Some? ==> forall k :: k in counts && k != 'J' ==> counts[k] <= counts[highest.value]
  {
    highest := None;
    var highestValue := 0;
    var remaining := counts.Keys;
    while remaining != {}
      invariant remaining <= counts.Keys
      invariant highest.None? ==> highestValue == 0
      invariant highest.Some? ==> highest.value in counts && highest.value != 'J' && counts[highest.value] == highestValue > 0
      invariant forall k :: k in counts && k !in remaining && k != 'J' ==> counts[k] <= highestValue
      decreases |remaining|
    {
      var key :| key in remaining;
      var value := counts[key];
      if value > highestValue && key != 'J' {
        highestValue := value;
        highest := Some(key);
      }
      remaining := remaining - {key};
    }
  }

  /** `char_counts.values()`: the counts in the map's iteration order,
      which `keys` records. */
  method Values(counts: Counts) returns (values: seq<nat>, ghost keys: seq<char>)
    ensures Enumerates(keys, counts) && values == ValuesIn(counts, keys)
  {
    values, keys := [], [];
    var remaining := counts.Keys;
    while remaining != {}
      invariant remaining <= counts.Keys
      invariant Distinct(keys) && forall i :: 0 <= i < |keys| ==> keys[i] in counts && keys[i] !in remaining
      invariant forall k :: k in counts ==> k in remaining || k in keys
      invariant values == ValuesIn(counts, keys)
      decreases |remaining|
    {
      var key :| key in remaining;
      values, keys := values + [counts[key]], keys + [key];
      remaining := remaining - {key};
    }
  }

  /** `c` is a card other than `J` with the largest count among them. */
  predicate LargestOther(m: Counts, c: char)
  {
    c in m && c != 'J' && forall k :: k in m && k != 'J' ==> m[k] <= m[c]
  }

  /** Every key of the map is counted at least once, as in a tally. */
  predicate Positive(m: Counts) { forall k :: k in m ==> m[k] >= 1 }

  /** The map once the joker step is done on the tally `m`: untouched
      without jokers; with jokers, a 0 for `J` when the hand has none,
      untouched when it holds only jokers, and otherwise the jokers' count
      added to a largest other card and `J` removed. */
  ghost predicate FinalMap(m: Counts, jokers: bool, counts: Counts)
  {
    if !jokers then counts == m
    else if 'J' !in m then counts == m['J' := 0]
    else if forall k :: k in m ==> k == 'J' then counts == m
    else exists c :: LargestOther(m, c) && counts == m[c := m[c] + m['J']] - {'J'}
  }

  /** However the final map is listed, its values are a permutation of
      `FinalCounts`. */
  lemma {:induction false} FinalMapValues(m: Counts, d: seq<char>, jokers: bool, counts: Counts, keys: seq<char>)
    requires Enumerates(d, m) && FinalMap(m, jokers, counts) && Enumerates(keys, counts)
    ensures multiset(ValuesIn(counts, keys)) == multiset(FinalCounts(m, d, jokers))
  {
    if !jokers {
      SameKeysSameValues(m, keys, d);
    } else if 'J' !in m {
      NoJokerValues(m, d, counts, keys);
    } else if forall k :: k in m ==> k == 'J' {
      OnlyJokerValues(m, d, keys);
    } else {
      var c :| LargestOther(m, c) && counts == m[c := m[c] + m['J']] - {'J'};
      var j := m['J'];
      var v := m[c] + j;
      assert counts == m[c := v] - {'J'};
      assert FinalCounts(m, d, jokers) == JoinLargest(ValuesIn(m, Without(d, 'J')), j);
      FoldedValues(m, d, c, Without(d, 'J'), j, v);
      SameKeysSameValues(counts, keys, Without(d, 'J'));
    }
  }

  /** With jokers and no `J`: the stored 0 comes last. */
  lemma {:induction false} NoJokerValues(m: Counts, d: seq<char>, counts: Counts, keys: seq<char>)
    requires Enumerates(d, m) && 'J' !in m && counts == m['J' := 0] && Enumerates(keys, counts)
    ensures multiset(ValuesIn(counts, keys)) == multiset(ValuesIn(m, d) + [0])
  {
    assert Enumerates(d + ['J'], counts);
    SameKeysSameValues(counts, keys, d + ['J']);
    ValuesUpdateNew(m, d, 'J', 0);
  }

  /** With only jokers: the single count of `J`. */
  lemma {:induction false} OnlyJokerValues(m: Counts, d: seq<char>, keys: seq<char>)
    requires Enumerates(d, m) && 'J' in m && (forall k :: k in m ==> k == 'J') && Enumerates(keys, m)
    ensures Without(d, 'J') == [] && multiset(ValuesIn(m, keys)) == multiset([m['J']])
  {
    assert Enumerates(['J'], m);
    SameKeysSameValues(m, keys, ['J']);
    assert ValuesIn(m, ['J']) == [m['J']];
  }

  /** Two listings of a map's keys give the same values up to order. */
  lemma {:induction false} SameKeysSameValues(m: Counts, k1: seq<char>, k2: seq<char>)
    requires Enumerates(k1, m) && Enumerates(k2, m)
    ensures multiset(ValuesIn(m, k1)) == multiset(ValuesIn(m, k2))
  {
    EnumerationsPermute(m, k1, k2);
    ValuesPermute(m, k1, k2);
  }

  /** Adding the jokers to a largest other count gives the counts of
      `FinalCounts`: the largest of the others raised by the jokers. */
  lemma {:induction false} FoldedValues(m: Counts, d: seq<char>, c: char, o: seq<char>, j: nat, v: nat)
    requires Enumerates(d, m) && 'J' in m && o == Without(d, 'J') && LargestOther(m, c)
    requires j == m['J'] && v == m[c] + j
    ensures Enumerates(o, m[c := v] - {'J'})
    ensures multiset(ValuesIn(m[c := v] - {'J'}, o)) == multiset(JoinLargest(ValuesIn(m, o), j))
  {
    OthersEnumerate(d, m, c, v);
    var idx :| 0 <= idx < |o| && o[idx] == c;
    RaisedLargest(m, o, c, idx, j, v);
  }

  /** Raising the count of a largest listed card by `j` gives the other
      counts with the jokers joined to the largest, up to order. */
  lemma {:induction false} RaisedLargest(m: Counts, o: seq<char>, c: char, idx: nat, j: nat, v: nat)
    requires (forall i :: 0 <= i < |o| ==> o[i] in m && o[i] != 'J') && Distinct(o)
    requires idx < |o| && o[idx] == c && LargestOther(m, c) && v == m[c] + j
    ensures multiset(ValuesIn(m[c := v] - {'J'}, o)) == multiset(JoinLargest(ValuesIn(m, o), j))
  {
    var others := ValuesIn(m, o);
    var p := SortDesc(others);
    BumpedValues(m, o, c, idx, v);
    LargestIsHead(m, o, c, idx, p);
    assert JoinLargest(others, j) == [v] + p[1..] by {
      assert p[0] + j == v;
    }
    BumpHead(others, idx, m[c], v, p);
  }

  /** Listing the keys other than `J`. */
  lemma {:induction false} OthersEnumerate(d: seq<char>, m: Counts, c: char, v: nat)
    requires Enumerates(d, m) && c in m && c != 'J'
    ensures Enumerates(Without(d, 'J'), m[c := v] - {'J'})
    ensures forall i :: 0 <= i < |Without(d, 'J')| ==> Without(d, 'J')[i] in m && Without(d, 'J')[i] != 'J'
  {
    var o, f := Without(d, 'J'), m[c := v] - {'J'};
    forall i | 0 <= i < |o| ensures o[i] in m && o[i] in f && o[i] != 'J' {
      assert o[i] in o;
    }
    forall k | k in f ensures k in o {
      assert k in m && k != 'J';
    }
  }

  /** The values after the fold differ from the others' counts only at
      the largest card. */
  lemma {:induction false} BumpedValues(m: Counts, o: seq<char>, c: char, idx: nat, v: nat)
    requires (forall i :: 0 <= i < |o| ==> o[i] in m && o[i] != 'J') && Distinct(o) && idx < |o| && o[idx] == c
    ensures ValuesIn(m[c := v] - {'J'}, o) == ValuesIn(m, o)[idx := v]
  {
  }

  /** Raising one largest element `u` of a list to `v` replaces the head of
      its sorted counterpart by `v`. */
  lemma {:induction false} BumpHead(others: seq<nat>, idx: nat, u: nat, v: nat, p: seq<nat>)
    requires idx < |others| && others[idx] == u && multiset(p) == multiset(others) && p != [] && p[0] == u
    ensures multiset(others[idx := v]) == multiset([v] + p[1..])
  {
    ReplaceAt(others, idx, v);
    ReplaceAt(p, 0, v);
    assert p[0 := v] == [v] + p[1..];
  }

  /** Replacing one element swaps it for the new one in the multiset. */
  lemma ReplaceAt<T>(s: seq<T>, i: nat, v: T)
    requires i < |s|
    ensures multiset(s[i := v]) == multiset(s) - multiset{s[i]} + multiset{v}
  {
    RemoveAt(s, i);
    RemoveAt(s[i := v], i);
    assert s[i := v][..i] + s[i := v][i + 1..] == s[..i] + s[i + 1..];
  }

  /** The head of the sorted counts is the count of a largest card. */
  lemma {:induction false} LargestIsHead(m: Counts, o: seq<char>, c: char, idx: nat, p: seq<nat>)
    requires LargestOther(m, c) && idx < |o| && o[idx] == c
    requires forall i :: 0 <= i < |o| ==> o[i] in m && o[i] != 'J'
    requires Descending(p) && multiset(p) == multiset(ValuesIn(m, o))
    ensures p != [] && p[0] == m[c]
  {
    var others := ValuesIn(m, o);
    assert others[idx] in multiset(p);
    var t :| 0 <= t < |p| && p[t] == m[c];
    DescendingHead(p, t);
    assert p[0] in multiset(others);
    var k :| 0 <= k < |others| && others[k] == p[0];
  }

  /** The joker step of `calc_score` on a tally: a 0 is entered for `J`
      when the hand has none; when it has some and another card, the
      jokers' count goes to a most frequent other card and `J` is removed. */
  method FoldJokers(m: Counts) returns (counts: Counts)
    requires Positive(m)
    ensures FinalMap(m, true, counts)
  {
    counts := m;
    if 'J' !in counts {
      counts := counts['J' := 0];
    }
    var jokerCount := counts['J'];
    if jokerCount > 0 {
      var highest := MostFrequentOther(counts);
      match highest {
        case Some(c) =>
          var total := counts[c] + jokerCount;
          counts := counts[c := total] - {'J'};
        case None =>
      }
    }
  }

  /** `Hand::calc_score`: count the cards, let the jokers join a largest
      other card, read the counts from the map, sort them from largest to
      smallest and classify; the score of the hand, with or without
      jokers. */
  method CalcScore(cards: seq<char>, jokers: bool) returns (score: Score)
    ensures score == ScoreOf(cards, jokers)
  {
    var counts := CountChars(cards);
    TallyMeaning(cards);
    ghost var tally := counts;
    if jokers {
      counts := FoldJokers(counts);
    }
    var values, keys := Values(counts);
    TallyEnumerations(cards);
    FinalMapValues(tally, Dedup(cards), jokers, counts, keys);
    var sorted := SortDesc(values);
    SortPermutationFree(values, FinalCounts(tally, Dedup(cards), jokers));
    score := Classify(sorted);
  }

  // ---------------------------------------------------------------------
  // What the profile says about the hand
  // ---------------------------------------------------------------------

  /** Leaving the key `x` out of the listing takes its count out of the
      total. */
  lemma {:induction false} SumWithout(m: Counts, d: seq<char>, x: char)
    requires Distinct(d) && forall i :: 0 <= i < |d| ==> d[i] in m
    ensures Sum(ValuesIn(m, d)) == Sum(ValuesIn(m, Without(d, x))) + (if x in d then m[x] else 0)
    decreases |d|
  {
    if d != [] {
      var t := d[1..];
      assert Distinct(t) && d[0] !in t;
      assert ValuesIn(m, d)[1..] == ValuesIn(m, t);
      SumWithout(m, t, x);
      if d[0] != x {
        var w := Without(t, x);
        assert Without(d, x) == [d[0]] + w;
        assert ValuesIn(m, [d[0]] + w)[1..] == ValuesIn(m, w);
      }
    }
  }

  /** Joining the jokers to the largest count adds them to the total. */
  lemma JoinLargestSum(others: seq<nat>, j: nat)
    ensures Sum(JoinLargest(others, j)) == Sum(others) + j
  {
    if others != [] {
      var p := SortDesc(others);
      SumSortDesc(others);
      assert ([p[0] + j] + p[1..])[1..] == p[1..];
    }
  }

  /** The joker step keeps the total of the counts. */
  lemma FinalCountsSum(m: Counts, d: seq<char>, jokers: bool)
    requires Enumerates(d, m)
    ensures Sum(FinalCounts(m, d, jokers)) == Sum(ValuesIn(m, d))
  {
    if jokers {
      if 'J' !in m {
        SumSnoc(ValuesIn(m, d), 0);
      } else {
        var j := m['J'];
        SumWithout(m, d, 'J');
        JoinLargestSum(ValuesIn(m, Without(d, 'J')), j);
      }
    }
  }

  /** The counts the score is read from add up to the number of cards,
      with jokers or without. */
  lemma ProfileSum(cards: seq<char>, jokers: bool)
    ensures Sum(Profile(cards, jokers)) == |cards|
  {
    TallyEnumerations(cards);
    TallySum(cards);
    FinalCountsSum(Tally(cards), Dedup(cards), jokers);
    SumSortDesc(FinalCounts(Tally(cards), Dedup(cards), jokers));
  }

  /** Sorting a trailing 0 leaves it at the end. */
  lemma SortAppendZero(v: seq<nat>)
    ensures SortDesc(v + [0]) == SortDesc(v) + [0]
  {
    var s := SortDesc(v);
    assert multiset(s + [0]) == multiset(v + [0]);
    SortedUnique(SortDesc(v + [0]), s + [0]);
  }

  /** A hand without a `J` scores the same in both parts: the 0 that
      `or_default` enters for `J` changes nothing. */
  lemma NoJokerSame(cards: seq<char>)
    requires 'J' !in cards
    ensures ScoreOf(cards, true) == ScoreOf(cards, false)
  {
    var v := ValuesIn(Tally(cards), Dedup(cards));
    SortAppendZero(v);
    ClassifyIgnoresZero(SortDesc(v));
  }

  /** A hand of jokers only keeps its count: `JJJJJ` is five of a kind. */
  lemma AllJokers(cards: seq<char>)
    requires cards != [] && forall i :: 0 <= i < |cards| ==> cards[i] == 'J'
    ensures Profile(cards, true) == [|cards|]
    ensures |cards| == 5 ==> ScoreOf(cards, true) == FiveOfKind
  {
    var m, d := Tally(cards), Dedup(cards);
    assert cards[0] in cards;
    assert forall c :: c in d ==> c == 'J' by {
      forall c | c in d ensures c == 'J' {
        var i :| 0 <= i < |cards| && cards[i] == c;
      }
    }
    var w := Without(d, 'J');
    assert forall c :: c !in w;
    NoMembers(w);
    assert FinalCounts(m, d, true) == [m['J']];
    assert SortDesc([m['J']]) == [m['J']];
    ProfileSum(cards, true);
  }

  lemma NoMembers<T>(s: seq<T>)
    ensures (forall x :: x !in s) ==> s == []
  {
    if s != [] {
      assert s[0] in s;
    }
  }

  /** Every count the score is read from is at least 1, except the 0
      entered for `J` in a jokers hand without one. */
  lemma ProfilePositive(cards: seq<char>, jokers: bool)
    requires !jokers || 'J' in cards
    ensures forall i :: 0 <= i < |Profile(cards, jokers)| ==> Profile(cards, jokers)[i] >= 1
  {
    var m, d := Tally(cards), Dedup(cards);
    TallyMeaning(cards);
    var f := FinalCounts(m, d, jokers);
    assert forall c :: c in d ==> c in m && m[c] >= 1;
    if jokers {
      var o := ValuesIn(m, Without(d, 'J'));
      ValuesPositive(m, Without(d, 'J'));
      JoinLargestPositive(o, m['J']);
    } else {
      ValuesPositive(m, d);
    }
    PositiveSorted(f);
  }

  lemma ValuesPositive(m: Counts, keys: seq<char>)
    requires forall c :: c in keys ==> c in m && m[c] >= 1
    ensures forall i :: 0 <= i < |ValuesIn(m, keys)| ==> ValuesIn(m, keys)[i] >= 1
  {
    forall i | 0 <= i < |keys| ensures ValuesIn(m, keys)[i] >= 1 {
      assert keys[i] in keys;
    }
  }

  lemma JoinLargestPositive(others: seq<nat>, jokers: nat)
    requires jokers >= 1 && forall i :: 0 <= i < |others| ==> others[i] >= 1
    ensures forall i :: 0 <= i < |JoinLargest(others, jokers)| ==> JoinLargest(others, jokers)[i] >= 1
  {
    if others != [] {
      PositiveSorted(others);
    }
  }

  /** Sorting keeps every element at least 1. */
  lemma PositiveSorted(xs: seq<nat>)
    requires forall i :: 0 <= i < |xs| ==> xs[i] >= 1
    ensures forall i :: 0 <= i < |SortDesc(xs)| ==> SortDesc(xs)[i] >= 1
  {
    var r := SortDesc(xs);
    forall i | 0 <= i < |r| ensures r[i] >= 1 {
      assert r[i] in multiset(xs);
    }
  }

  /** Which of several equally frequent cards takes the jokers, and the
      order the map lists its entries in, do not change the score. */
  lemma ChoiceFree(m: Counts, d: seq<char>, jokers: bool, c1: Counts, k1: seq<char>, c2: Counts, k2: seq<char>)
    requires Enumerates(d, m) && FinalMap(m, jokers, c1) && FinalMap(m, jokers, c2)
    requires Enumerates(k1, c1) && Enumerates(k2, c2)
    ensures Classify(SortDesc(ValuesIn(c1, k1))) == Classify(SortDesc(ValuesIn(c2, k2)))
  {
    FinalMapValues(m, d, jokers, c1, k1);
    FinalMapValues(m, d, jokers, c2, k2);
    SortPermutationFree(ValuesIn(c1, k1), ValuesIn(c2, k2));
  }

  // ---------------------------------------------------------------------
  // Five-card hands
  // ---------------------------------------------------------------------

  lemma {:induction false} SumAtLeastLength(p: seq<nat>)
    requires forall i :: 0 <= i < |p| ==> p[i] >= 1
    ensures Sum(p) >= |p|
  {
    if p != [] {
      SumAtLeastLength(p[1..]);
    }
  }

  /** The counts of the seven categories of a five-card hand, largest
      first. */
  function Shape(s: Score): (p: seq<nat>)
    ensures Sum(p) == 5
  {
    match s
    case FiveOfKind => [5]
    case FourOfKind => [4, 1]
    case FullHouse => [3, 2]
    case ThreeOfKind => [3, 1, 1]
    case TwoPair => [2, 2, 1]
    case OnePair => [2, 1, 1, 1]
    case HighCard => [1, 1, 1, 1, 1]
  }

  /** The total of a short list, written out. */
  lemma SumSmall(p: seq<nat>)
    requires 1 <= |p| <= 5
    ensures |p| == 1 ==> Sum(p) == p[0]
    ensures |p| == 2 ==> Sum(p) == p[0] + p[1]
    ensures |p| == 3 ==> Sum(p) == p[0] + p[1] + p[2]
    ensures |p| == 4 ==> Sum(p) == p[0] + p[1] + p[2] + p[3]
    ensures |p| == 5 ==> Sum(p) == p[0] + p[1] + p[2] + p[3] + p[4]
  {
    var t := p[1..];
    if |t| > 0 {
      SumSmall(t);
    }
  }

  /** The counts of five cards, largest first, are one of the seven
      partitions of 5. */
  lemma FiveCardShapes(p: seq<nat>)
    requires Descending(p) && Sum(p) == 5 && forall i :: 0 <= i < |p| ==> p[i] >= 1
    ensures exists s :: p == Shape(s)
  {
    SumAtLeastLength(p);
    SumSmall(p);
    var n := |p|;
    if n == 1 {
      assert p == Shape(FiveOfKind);
    } else if n == 2 {
      PairShapes(p);
    } else if n == 3 {
      assert p[1] >= p[2];
      TripleShapes(p);
    } else if n == 4 {
      assert p[0] >= p[1] >= p[2] >= p[3];
      QuadrupleShape(p);
    } else {
      assert p[4] >= 1;
      QuintupleShape(p);
    }
  }

  lemma PairShapes(p: seq<nat>)
    requires |p| == 2 && p[0] >= p[1] >= 1 && p[0] + p[1] == 5
    ensures p == Shape(FourOfKind) || p == Shape(FullHouse)
  {
  }

  lemma TripleShapes(p: seq<nat>)
    requires |p| == 3 && p[0] >= p[1] >= p[2] >= 1 && p[0] + p[1] + p[2] == 5
    ensures p == Shape(ThreeOfKind) || p == Shape(TwoPair)
  {
  }

  lemma QuadrupleShape(p: seq<nat>)
    requires |p| == 4 && p[0] >= p[1] >= p[2] >= p[3] >= 1 && p[0] + p[1] + p[2] + p[3] == 5
    ensures p == Shape(OnePair)
  {
  }

  lemma QuintupleShape(p: seq<nat>)
    requires |p| == 5 && p[0] >= 1 && p[1] >= 1 && p[2] >= 1 && p[3] >= 1 && p[4] >= 1
    requires p[0] + p[1] + p[2] + p[3] + p[4] == 5
    ensures p == Shape(HighCard)
  {
  }

  /** On five cards the guards give the poker categories: the score names
      the shape of the counts exactly, and each shape has its own score. */
  lemma ClassifyFiveCards(p: seq<nat>)
    requires Descending(p) && Sum(p) == 5 && forall i :: 0 <= i < |p| ==> p[i] >= 1
    ensures p == Shape(Classify(p))
  {
    FiveCardShapes(p);
    var s :| p == Shape(s);
    ShapeClassified(s);
  }

  /** Each shape is classified as its own category. */
  lemma ShapeClassified(s: Score)
    ensures Classify(Shape(s)) == s
  {
    var p := Shape(s);
    ClassifyByHead(p);
    match s
    case FiveOfKind =>
    case FourOfKind =>
    case FullHouse => assert p[0] == 3 && p[1] == 2;
    case ThreeOfKind => assert p[0] == 3 && p[1] == 1;
    case TwoPair => assert p[0] == 2 && p[1] == 2;
    case OnePair => assert p[0] == 2 && p[1] == 1;
    case HighCard => assert p[0] == 1;
  }

  lemma ShapeInjective(a: Score, b: Score)
    ensures Shape(a) == Shape(b) <==> a == b
  {
    if a != b {
      assert Shape(a) != Shape(b) by {
        if |Shape(a)| == |Shape(b)| {
          assert Shape(a)[0] != Shape(b)[0];
        }
      }
    }
  }

  /** A five-card hand's score is the poker category of its counts, the
      jokers counted with a most frequent other card; a jokers hand
      without a `J` scores as in part one. */
  lemma FiveCardHand(cards: seq<char>, jokers: bool)
    requires |cards| == 5 && (!jokers || 'J' in cards)
    ensures Profile(cards, jokers) == Shape(ScoreOf(cards, jokers))
  {
    ProfileSum(cards, jokers);
    ProfilePositive(cards, jokers);
    ClassifyFiveCards(Profile(cards, jokers));
  }

  // ---------------------------------------------------------------------
  // Card strength and the comparator of `sort`
  // ---------------------------------------------------------------------

  /** `CARDS_1`: the cards from strongest to weakest. */
  const Cards1: seq<char> := ['A', 'K', 'Q', 'J', 'T', '9', '8', '7', '6', '5', '4', '3', '2']

  /** `CARDS_2`: the same with the joker the weakest. */
  const Cards2: seq<char> := ['A', 'K', 'Q', 'T', '9', '8', '7', '6', '5', '4', '3', '2', 'J']

  /** The part-two table is the part-one table with `J` moved from its
      place after `Q` to the weakest place, the other cards kept in
      order. */
  lemma CardTables()
    ensures |Cards1| == 13 && |Cards2| == 13 && Cards1[3] == 'J'
    ensures Cards2 == Cards1[..3] + Cards1[4..] + ['J']
  {
  }

  /** `cards.iter().position(..)`: the index of the first occurrence. */
  function IndexOf(table: seq<char>, c: char): (i: nat)
    requires c in table
    ensures i < |table| && table[i] == c && c !in table[..i]
  {
    if table[0] == c then 0
    else
      var i := IndexOf(table[1..], c);
      assert table[..i + 1] == [table[0]] + table[1..][..i];
      1 + i
  }

  /** A card's index identifies it. */
  lemma IndexOfInjective(table: seq<char>, a: char, b: char)
    requires a in table && b in table
    ensures IndexOf(table, a) == IndexOf(table, b) <==> a == b
  {
  }

  predicate InTable(table: seq<char>, cards: seq<char>)
  {
    forall i :: 0 <= i < |cards| ==> cards[i] in table
  }

  datatype Hand = Hand(cards: seq<char>, score: Score, bid: nat)

  datatype Ordering = Less | Equal | Greater

  function Flip(o: Ordering): Ordering
  {
    match o
    case Less => Greater
    case Equal => Equal
    case Greater => Less
  }

  /** The card loop of the comparator: the first position where the cards
      differ decides, the weaker card (the larger index) being `Greater`. */
  function CompareCards(table: seq<char>, a: seq<char>, b: seq<char>): Ordering
    requires |a| <= |b| && InTable(table, a) && InTable(table, b)
    decreases |a|
  {
    if a == [] then Equal
    else
      var i, j := IndexOf(table, a[0]), IndexOf(table, b[0]);
      if i > j then Greater
      else if i < j then Less
      else CompareCards(table, a[1..], b[1..])
  }

  /** Two hands the comparator can take: the first has no more cards than
      the second (the loop indexes the second by the first's positions)
      and every card is in the table (`position(..).unwrap()`). */
  predicate Comparable(table: seq<char>, h1: Hand, h2: Hand)
  {
    |h1.cards| <= |h2.cards| && InTable(table, h1.cards) && InTable(table, h2.cards)
  }

  /** The comparator of `sort`: score first, in declaration order, then
      the cards. */
  function CompareHands(table: seq<char>, h1: Hand, h2: Hand): Ordering
    requires Comparable(table, h1, h2)
  {
    if Rank(h1.score) > Rank(h2.score) then Greater
    else if Rank(h1.score) < Rank(h2.score) then Less
    else CompareCards(table, h1.cards, h2.cards)
  }

  /** The closure passed to `sort_by`, with its `for` loop. */
  method Comparator(table: seq<char>, h1: Hand, h2: Hand) returns (o: Ordering)
    requires Comparable(table, h1, h2)
    ensures o == CompareHands(table, h1, h2)
  {
    if Rank(h1.score) > Rank(h2.score) {
      return Greater;
    } else if Rank(h1.score) < Rank(h2.score) {
      return Less;
    }
    for i := 0 to |h1.cards|
      invariant CompareCards(table, h1.cards[i..], h2.cards[i..]) == CompareCards(table, h1.cards, h2.cards)
    {
      var h1c := IndexOf(table, h1.cards[i]);
      var h2c := IndexOf(table, h2.cards[i]);
      assert h1.cards[i..][1..] == h1.cards[i + 1..] && h2.cards[i..][1..] == h2.cards[i + 1..];
      if h1c > h2c {
        return Greater;
      } else if h1c < h2c {
        return Less;
      }
    }
    return Equal;
  }

  /** The index of a card is the one place it occurs first. */
  lemma IndexOfUnique(table: seq<char>, c: char, i: nat)
    requires i < |table| && table[i] == c && c !in table[..i]
    ensures IndexOf(table, c) == i
  {
  }

  /** With jokers the joker is the weakest card. */
  lemma JokerWeakest(c: char)
    requires c in Cards2 && c != 'J'
    ensures IndexOf(Cards2, c) < IndexOf(Cards2, 'J')
  {
    CardTables();
    assert 'J' !in Cards1[..3] + Cards1[4..];
    LastIsWeakest(Cards2, c, 'J');
  }

  /** A card held only at the end of a table has the highest index. */
  lemma LastIsWeakest(t: seq<char>, c: char, x: char)
    requires c in t && c != x && t != [] && t[|t| - 1] == x && x !in t[..|t| - 1]
    ensures x in t && IndexOf(t, c) < IndexOf(t, x)
  {
    IndexOfUnique(t, x, |t| - 1);
  }

  /** Moving `J` keeps the other cards' order of strength. */
  lemma OthersKeepOrder(a: char, b: char)
    requires a in Cards1 && b in Cards1 && a != 'J' && b != 'J'
    ensures a in Cards2 && b in Cards2
    ensures IndexOf(Cards1, a) < IndexOf(Cards1, b) <==> IndexOf(Cards2, a) < IndexOf(Cards2, b)
  {
    CardTables();
    MovedKeepsOrder(Cards1, Cards2, 3, a, b);
  }

  /** Moving the card at `k` to the end keeps the order of the others. */
  lemma MovedKeepsOrder(t: seq<char>, u: seq<char>, k: nat, a: char, b: char)
    requires k < |t| && a in t && b in t && a != t[k] && b != t[k]
    requires u == t[..k] + t[k + 1..] + [t[k]]
    ensures a in u && b in u
    ensures IndexOf(t, a) < IndexOf(t, b) <==> IndexOf(u, a) < IndexOf(u, b)
  {
    MovedIndex(t, u, k, a);
    MovedIndex(t, u, k, b);
    IndexOfInjective(t, a, b);
  }

  /** Moving the card at `k` to the end shifts the later cards down by
      one and leaves the earlier ones. */
  lemma MovedIndex(t: seq<char>, u: seq<char>, k: nat, c: char)
    requires k < |t| && c in t && c != t[k] && u == t[..k] + t[k + 1..] + [t[k]]
    ensures c in u
    ensures var i := IndexOf(t, c); IndexOf(u, c) == if i < k then i else i - 1
  {
    var i := IndexOf(t, c);
    if i < k {
      MovedBefore(t, u, k, c, i);
    } else {
      MovedAfter(t, u, k, c, i);
    }
  }

  lemma MovedBefore(t: seq<char>, u: seq<char>, k: nat, c: char, i: nat)
    requires k < |t| && u == t[..k] + t[k + 1..] + [t[k]]
    requires i < k && t[i] == c && c !in t[..i]
    ensures c in u && IndexOf(u, c) == i
  {
    assert u[..i] == t[..i];
    assert u[i] == c;
    IndexOfUnique(u, c, i);
  }

  lemma MovedAfter(t: seq<char>, u: seq<char>, k: nat, c: char, i: nat)
    requires k < |t| && u == t[..k] + t[k + 1..] + [t[k]]
    requires k < i < |t| && t[i] == c && c !in t[..i]
    ensures c in u && IndexOf(u, c) == i - 1
  {
    assert u[i - 1] == c;
    assert u[..i - 1] == t[..k] + t[k + 1..i];
    assert c !in u[..i - 1] by {
      assert forall x :: x in t[..k] + t[k + 1..i] ==> x in t[..i];
    }
    IndexOfUnique(u, c, i - 1);
  }

  /** The comparator on cards is `Equal` exactly when the cards agree. */
  lemma {:induction false} CompareCardsEqual(table: seq<char>, a: seq<char>, b: seq<char>)
    requires |a| == |b| && InTable(table, a) && InTable(table, b)
    ensures CompareCards(table, a, b) == Equal <==> a == b
    decreases |a|
  {
    if a != [] {
      CompareCardsEqual(table, a[1..], b[1..]);
      IndexOfInjective(table, a[0], b[0]);
      assert a == [a[0]] + a[1..] && b == [b[0]] + b[1..];
    }
  }

  /** Otherwise the first differing position decides: `Less` exactly when
      the first card that differs is stronger in `a`. */
  lemma {:induction false} CompareCardsLess(table: seq<char>, a: seq<char>, b: seq<char>)
    requires |a| == |b| && InTable(table, a) && InTable(table, b)
    ensures CompareCards(table, a, b) == Less <==> exists k :: FirstStronger(table, a, b, k)
    decreases |a|
  {
    if a != [] {
      var a', b' := a[1..], b[1..];
      var i, j := IndexOf(table, a[0]), IndexOf(table, b[0]);
      if i == j {
        CompareCardsLess(table, a', b');
        IndexOfInjective(table, a[0], b[0]);
        if CompareCards(table, a', b') == Less {
          var k :| FirstStronger(table, a', b', k);
          StrongerLater(table, a, b, k);
        }
        if exists k :: FirstStronger(table, a, b, k) {
          var k :| FirstStronger(table, a, b, k);
          StrongerEarlier(table, a, b, k);
        }
      } else if i < j {
        assert FirstStronger(table, a, b, 0);
      }
    }
  }

  /** Position `k` is the first where `a` and `b` differ, and there `a`
      holds the stronger card. */
  predicate FirstStronger(table: seq<char>, a: seq<char>, b: seq<char>, k: int)
    requires |a| == |b| && InTable(table, a) && InTable(table, b)
  {
    0 <= k < |a| && a[..k] == b[..k] && IndexOf(table, a[k]) < IndexOf(table, b[k])
  }

  lemma StrongerLater(table: seq<char>, a: seq<char>, b: seq<char>, k: int)
    requires |a| == |b| && a != [] && InTable(table, a) && InTable(table, b) && a[0] == b[0]
    requires FirstStronger(table, a[1..], b[1..], k)
    ensures FirstStronger(table, a, b, k + 1)
  {
    assert a[..k + 1] == [a[0]] + a[1..][..k] && b[..k + 1] == [b[0]] + b[1..][..k];
  }

  lemma StrongerEarlier(table: seq<char>, a: seq<char>, b: seq<char>, k: int)
    requires |a| == |b| && a != [] && InTable(table, a) && InTable(table, b)
    requires IndexOf(table, a[0]) == IndexOf(table, b[0])
    requires FirstStronger(table, a, b, k)
    ensures k > 0 && FirstStronger(table, a[1..], b[1..], k - 1)
  {
    assert a[1..][..k - 1] == a[..k][1..] && b[1..][..k - 1] == b[..k][1..];
  }

  /** Swapping equally long hands flips the comparison. */
  lemma {:induction false} CompareCardsFlip(table: seq<char>, a: seq<char>, b: seq<char>)
    requires |a| == |b| && InTable(table, a) && InTable(table, b)
    ensures CompareCards(table, b, a) == Flip(CompareCards(table, a, b))
    decreases |a|
  {
    if a != [] {
      CompareCardsFlip(table, a[1..], b[1..]);
    }
  }

  /** Not `Greater` is transitive on equally long hands. */
  lemma {:induction false} CompareCardsTransitive(table: seq<char>, a: seq<char>, b: seq<char>, c: seq<char>)
    requires |a| == |b| == |c| && InTable(table, a) && InTable(table, b) && InTable(table, c)
    requires CompareCards(table, a, b) != Greater && CompareCards(table, b, c) != Greater
    ensures CompareCards(table, a, c) != Greater
    decreases |a|
  {
    if a != [] && IndexOf(table, a[0]) == IndexOf(table, c[0]) {
      CompareCardsTransitive(table, a[1..], b[1..], c[1..]);
    }
  }

  /** Two hands of the same length: the comparator is `Equal` exactly when
      they have the same score and the same cards (the bids may differ). */
  lemma CompareHandsEqual(table: seq<char>, h1: Hand, h2: Hand)
    requires |h1.cards| == |h2.cards| && Comparable(table, h1, h2)
    ensures CompareHands(table, h1, h2) == Equal <==> h1.score == h2.score && h1.cards == h2.cards
  {
    RankInjective(h1.score, h2.score);
    CompareCardsEqual(table, h1.cards, h2.cards);
  }

  /** The comparator is antisymmetric. */
  lemma CompareHandsFlip(table: seq<char>, h1: Hand, h2: Hand)
    requires |h1.cards| == |h2.cards| && Comparable(table, h1, h2)
    ensures CompareHands(table, h2, h1) == Flip(CompareHands(table, h1, h2))
  {
    CompareCardsFlip(table, h1.cards, h2.cards);
  }

  /** The comparator is transitive: a total preorder, as `sort_by`
      demands. */
  lemma CompareHandsTransitive(table: seq<char>, h1: Hand, h2: Hand, h3: Hand)
    requires |h1.cards| == |h2.cards| == |h3.cards| && Comparable(table, h1, h2) && Comparable(table, h2, h3)
    requires CompareHands(table, h1, h2) != Greater && CompareHands(table, h2, h3) != Greater
    ensures Comparable(table, h1, h3) && CompareHands(table, h1, h3) != Greater
  {
    if Rank(h1.score) == Rank(h2.score) == Rank(h3.score) {
      CompareCardsTransitive(table, h1.cards, h2.cards, h3.cards);
    }
  }

  // ---------------------------------------------------------------------
  // sort: `sort_by` with the comparator
  // ---------------------------------------------------------------------

  /** A hand of `n` cards, all in the table. */
  predicate Fits(table: seq<char>, n: nat, h: Hand)
  {
    |h.cards| == n && InTable(table, h.cards)
  }

  /** Hands the comparator can take in either order: all of `n` cards,
      every card in the table. */
  predicate Sortable(table: seq<char>, n: nat, hs: seq<Hand>)
  {
    forall h :: h in hs ==> Fits(table, n, h)
  }

  /** No hand compares `Greater` than the next one. */
  predicate Sorted(table: seq<char>, n: nat, hs: seq<Hand>)
    requires Sortable(table, n, hs)
  {
    forall i :: 0 <= i < |hs| - 1 ==> (assert hs[i] in hs && hs[i + 1] in hs; CompareHands(table, hs[i], hs[i + 1]) != Greater)
  }

  /** Puts `h` before the first hand it does not compare `Greater` than,
      so after the hands that are strictly less and before those that are
      equal: the insertion step of a stable sort. */
  function InsertHand(table: seq<char>, n: nat, h: Hand, s: seq<Hand>): (r: seq<Hand>)
    requires Fits(table, n, h) && Sortable(table, n, s)
    ensures |r| == |s| + 1 && multiset(r) == multiset(s) + multiset{h}
    ensures r[0] == h || (s != [] && r[0] == s[0])
  {
    if s == [] then [h]
    else if (assert s[0] in s; CompareHands(table, h, s[0]) != Greater) then [h] + s
    else
      var t := InsertHand(table, n, h, s[1..]);
      assert s == [s[0]] + s[1..];
      [s[0]] + t
  }

  /** The hands ordered by the comparator, equal hands kept in their
      input order. */
  function SortHands(table: seq<char>, n: nat, hs: seq<Hand>): (r: seq<Hand>)
    requires Sortable(table, n, hs)
    ensures |r| == |hs| && multiset(r) == multiset(hs)
  {
    if hs == [] then []
    else
      var t := SortHands(table, n, hs[1..]);
      assert hs == [hs[0]] + hs[1..];
      SortablePermutation(table, n, hs[1..], t);
      InsertHand(table, n, hs[0], t)
  }

  /** A permutation of sortable hands is sortable. */
  lemma SortablePermutation(table: seq<char>, n: nat, hs: seq<Hand>, ks: seq<Hand>)
    requires Sortable(table, n, hs) && multiset(ks) == multiset(hs)
    ensures Sortable(table, n, ks)
  {
    forall h | h in ks ensures Fits(table, n, h) {
      assert h in multiset(hs);
    }
  }

  /** Inserting into sorted hands keeps them sorted. */
  lemma {:induction false} InsertSorted(table: seq<char>, n: nat, h: Hand, s: seq<Hand>)
    requires Fits(table, n, h) && Sortable(table, n, s) && Sorted(table, n, s)
    ensures Sortable(table, n, InsertHand(table, n, h, s)) && Sorted(table, n, InsertHand(table, n, h, s))
    decreases |s|
  {
    var r := InsertHand(table, n, h, s);
    SortablePermutation(table, n, [h] + s, r);
    if s == [] {
    } else if (assert s[0] in s; CompareHands(table, h, s[0]) != Greater) {
      ConsSorted(table, n, h, s);
    } else {
      var t := InsertHand(table, n, h, s[1..]);
      SortedTail(table, n, s);
      InsertSorted(table, n, h, s[1..]);
      if t[0] == h {
        CompareHandsFlip(table, h, s[0]);
      }
      ConsSorted(table, n, s[0], t);
    }
  }

  lemma SortedTail(table: seq<char>, n: nat, s: seq<Hand>)
    requires s != [] && Sortable(table, n, s) && Sorted(table, n, s)
    ensures Sortable(table, n, s[1..]) && Sorted(table, n, s[1..])
  {
    assert forall i :: 0 <= i < |s| - 1 ==> s[1..][i] == s[i + 1];
  }

  lemma ConsSorted(table: seq<char>, n: nat, x: Hand, t: seq<Hand>)
    requires Fits(table, n, x) && Sortable(table, n, t) && Sorted(table, n, t)
    requires t != [] ==> t[0] in t && CompareHands(table, x, t[0]) != Greater
    ensures Sortable(table, n, [x] + t) && Sorted(table, n, [x] + t)
  {
    var r := [x] + t;
    assert forall i :: 0 < i < |r| ==> r[i] == t[i - 1];
  }

  /** `sort_by` leaves the hands sorted. */
  lemma {:induction false} SortHandsSorted(table: seq<char>, n: nat, hs: seq<Hand>)
    requires Sortable(table, n, hs)
    ensures Sortable(table, n, SortHands(table, n, hs)) && Sorted(table, n, SortHands(table, n, hs))
    decreases |hs|
  {
    SortablePermutation(table, n, hs, SortHands(table, n, hs));
    if hs != [] {
      var t := SortHands(table, n, hs[1..]);
      SortHandsSorted(table, n, hs[1..]);
      InsertSorted(table, n, hs[0], t);
    }
  }

  /** Sorting sorted hands changes nothing: a stable sort keeps hands that
      are already in order where they are. */
  lemma {:induction false} SortHandsSortedInput(table: seq<char>, n: nat, hs: seq<Hand>)
    requires Sortable(table, n, hs) && Sorted(table, n, hs)
    ensures SortHands(table, n, hs) == hs
    decreases |hs|
  {
    if hs != [] {
      var t := hs[1..];
      assert Sorted(table, n, t) by {
        assert forall i :: 0 <= i < |t| ==> t[i] == hs[i + 1];
      }
      SortHandsSortedInput(table, n, t);
      assert hs == [hs[0]] + t;
    }
  }

  /** In sorted hands no hand compares `Greater` than any later one. */
  lemma {:induction false} SortedPairs(table: seq<char>, n: nat, hs: seq<Hand>, i: nat, j: nat)
    requires Sortable(table, n, hs) && Sorted(table, n, hs) && i < j < |hs|
    ensures hs[i] in hs && hs[j] in hs && CompareHands(table, hs[i], hs[j]) != Greater
    decreases j - i
  {
    assert hs[i] in hs && hs[i + 1] in hs && hs[j] in hs;
    if i + 1 < j {
      SortedPairs(table, n, hs, i + 1, j);
      CompareHandsTransitive(table, hs[i], hs[i + 1], hs[j]);
    }
  }

  /** `[h]` when `h` has the cards and score of `k`, else nothing. */
  function Keep(h: Hand, k: Hand): seq<Hand>
  {
    if h.cards == k.cards && h.score == k.score then [h] else []
  }

  /** The hands with the same cards and score as `k`, in order: the hands
      the comparator cannot tell from `k`, which may differ in bid. */
  function Alike(hs: seq<Hand>, k: Hand): seq<Hand>
  {
    if hs == [] then [] else Keep(hs[0], k) + Alike(hs[1..], k)
  }

  lemma AlikeCons(h: Hand, s: seq<Hand>, k: Hand)
    ensures Alike([h] + s, k) == Keep(h, k) + Alike(s, k)
  {
    assert ([h] + s)[1..] == s;
  }

  /** A hand is inserted before the hands it cannot be told from. */
  lemma {:induction false} InsertAlike(table: seq<char>, n: nat, h: Hand, s: seq<Hand>, k: Hand)
    requires Fits(table, n, h) && Sortable(table, n, s)
    ensures Alike(InsertHand(table, n, h, s), k) == Keep(h, k) + Alike(s, k)
    decreases |s|
  {
    if s == [] {
      AlikeCons(h, s, k);
    } else if (assert s[0] in s; CompareHands(table, h, s[0]) != Greater) {
      AlikeCons(h, s, k);
    } else {
      var x := s[0];
      var rest := s[1..];
      var t := InsertHand(table, n, h, rest);
      assert InsertHand(table, n, h, s) == [x] + t;
      assert Sortable(table, n, rest);
      InsertAlike(table, n, h, rest, k);
      AlikeCons(x, t, k);
      AlikeCons(x, rest, k);
      assert s == [x] + rest;
      CompareHandsEqual(table, h, x);
      KeepSwap(h, x, k, Alike(rest, k));
    }
  }

  /** Two hands that are not both alike `k` can trade places in `Alike`. */
  lemma KeepSwap(h: Hand, x: Hand, k: Hand, rest: seq<Hand>)
    requires Keep(h, k) == [] || Keep(x, k) == []
    ensures Keep(x, k) + (Keep(h, k) + rest) == Keep(h, k) + (Keep(x, k) + rest)
  {
    if Keep(h, k) == [] {
      assert Keep(h, k) + rest == rest;
    } else {
      assert Keep(x, k) + rest == rest;
    }
  }

  /** `sort_by` is stable: the hands that compare `Equal` keep their input
      order, so do their bids. */
  lemma {:induction false} SortHandsStable(table: seq<char>, n: nat, hs: seq<Hand>, k: Hand)
    requires Sortable(table, n, hs)
    ensures Alike(SortHands(table, n, hs), k) == Alike(hs, k)
    decreases |hs|
  {
    if hs != [] {
      var t := SortHands(table, n, hs[1..]);
      SortHandsStable(table, n, hs[1..], k);
      SortablePermutation(table, n, hs[1..], t);
      InsertAlike(table, n, hs[0], t, k);
      AlikeCons(hs[0], hs[1..], k);
      assert hs == [hs[0]] + hs[1..];
    }
  }

  // ---------------------------------------------------------------------
  // calculate_total_winnings
  // ---------------------------------------------------------------------

  /** The `enumerate().fold(..)` from position `i` on, with `n - i` the
      rank of the hand at `i`. */
  function FoldWinnings(hs: seq<Hand>, i: nat, acc: nat): nat
    requires i <= |hs|
    decreases |hs| - i
  {
    if i == |hs| then acc else FoldWinnings(hs, i + 1, acc + hs[i].bid * (|hs| - i))
  }

  /** Each hand's bid times its rank: the first hand of the sorted list has
      rank `|hs|`, the last rank 1. */
  function RankedBids(hs: seq<Hand>): nat
  {
    if hs == [] then 0 else hs[0].bid * |hs| + RankedBids(hs[1..])
  }

  lemma {:induction false} FoldWinningsMeaning(hs: seq<Hand>, i: nat, acc: nat)
    requires i <= |hs|
    ensures FoldWinnings(hs, i, acc) == acc + RankedBids(hs[i..])
    decreases |hs| - i
  {
    if i < |hs| {
      FoldWinningsMeaning(hs, i + 1, acc + hs[i].bid * (|hs| - i));
      assert hs[i..][1..] == hs[i + 1..];
    }
  }

  /** The total winnings: the sum over the hands of bid times rank. */
  lemma TotalWinningsMeaning(hs: seq<Hand>)
    ensures FoldWinnings(hs, 0, 0) == RankedBids(hs)
  {
    FoldWinningsMeaning(hs, 0, 0);
    assert hs[0..] == hs;
  }

  // ---------------------------------------------------------------------
  // Hand::from_str
  // ---------------------------------------------------------------------

  /** `Hand::from_str`: the first token is the cards, the second the bid;
      further tokens are ignored. */
  function ParseHand(line: string, jokers: bool): (r: Result<Hand>)
    ensures r.Ok? ==> r.value.score == ScoreOf(r.value.cards, jokers)
    ensures r.Ok? <==> |SplitWhitespace(line)| >= 2 && ParseNat(SplitWhitespace(line)[1]).Some?
  {
    var tokens := SplitWhitespace(line);
    if tokens == [] then Err("Couldn't parse cards")
    else if |tokens| == 1 then Err("Couldn't parse bid")
    else match ParseNat(tokens[1])
      case None => Err(ParseNatMessage(tokens[1]))
      case Some(bid) => Ok(Hand(tokens[0], ScoreOf(tokens[0], jokers), bid))
  }

  /** A line written as the cards, a space and the bid reads back as that
      hand. */
  lemma ParseHandFormatted(cards: string, digits: string, jokers: bool)
    requires cards != [] && NoWhitespace(cards) && digits != [] && AllDigits(digits)
    ensures ParseHand(cards + " " + digits, jokers) == Ok(Hand(cards, ScoreOf(cards, jokers), DecimalValue(digits)))
  {
    var rest := " " + digits;
    assert AllDigits(digits) ==> NoWhitespace(digits);
    SplitWhitespaceToken(digits, []);
    assert digits + [] == digits;
    assert SplitWhitespace(rest) == [digits] by {
      assert rest[1..] == digits;
    }
    SplitWhitespaceToken(cards, rest);
    assert cards + " " + digits == cards + rest;
    var tokens := SplitWhitespace(cards + rest);
    assert tokens == [cards, digits];
    ParseNatOfDigits(digits);
  }

  /** `Hand::from_str`, calling `calc_score`. */
  method FromStr(line: string, jokers: bool) returns (r: Result<Hand>)
    ensures r == ParseHand(line, jokers)
  {
    var tokens := SplitWhitespace(line);
    if tokens == [] {
      return Err("Couldn't parse cards");
    }
    var cards := tokens[0];
    if |tokens| == 1 {
      return Err("Couldn't parse bid");
    }
    match ParseNat(tokens[1])
    case None =>
      return Err(ParseNatMessage(tokens[1]));
    case Some(bid) =>
      var score := CalcScore(cards, jokers);
      return Ok(Hand(cards, score, bid));
  }

  /** `flat_map(|l| Hand::from_str(l, jokers))`: the hands of the lines
      that parse, in order; the others are dropped. */
  function ParsedHands(lines: Lines, jokers: bool): (hs: seq<Hand>)
    ensures |hs| <= |lines|
  {
    if lines == [] then []
    else
      var n := |lines| - 1;
      ParsedHands(lines[..n], jokers) + match ParseHand(lines[n], jokers)
        case Ok(h) => [h]
        case Err(_) => []
  }

  /** Every parsed hand carries the score of its own cards. */
  lemma {:induction false} ParsedHandsScored(lines: Lines, jokers: bool)
    ensures forall h :: h in ParsedHands(lines, jokers) ==> h.score == ScoreOf(h.cards, jokers)
  {
    if lines != [] {
      ParsedHandsScored(lines[..|lines| - 1], jokers);
    }
  }

  function TableOf(jokers: bool): seq<char>
  {
    if jokers then Cards2 else Cards1
  }

  function HandSize(hs: seq<Hand>): nat
  {
    if hs == [] then 0 else |hs[0].cards|
  }

  /** The hands `sort` can order without a panic: all as long as the
      first, every card in the table. */
  predicate Rankable(lines: Lines, jokers: bool)
  {
    var hs := ParsedHands(lines, jokers);
    Sortable(TableOf(jokers), HandSize(hs), hs)
  }

  /** `calculate_total_winnings`: the hands parsed, sorted weakest last and
      each bid multiplied by its rank. */
  method CalculateTotalWinnings(lines: Lines, jokers: bool) returns (total: nat)
    requires Rankable(lines, jokers)
    ensures var hs := ParsedHands(lines, jokers);
      total == RankedBids(SortHands(TableOf(jokers), HandSize(hs), hs))
  {
    var cards := if !jokers then Cards1 else Cards2;
    var hands := [];
    for i := 0 to |lines|
      invariant hands == ParsedHands(lines[..i], jokers)
    {
      var hand := FromStr(lines[i], jokers);
      assert lines[..i + 1][..i] == lines[..i];
      if hand.Ok? {
        hands := hands + [hand.value];
      }
    }
    assert lines[..|lines|] == lines;
    var sorted := SortHands(cards, HandSize(hands), hands);
    total := FoldWinnings(sorted, 0, 0);
    TotalWinningsMeaning(sorted);
  }

  method PartOne(lines: Lines) returns (total: nat)
    requires Rankable(lines, false)
    ensures var hs := ParsedHands(lines, false); total == RankedBids(SortHands(Cards1, HandSize(hs), hs))
  {
    total := CalculateTotalWinnings(lines, false);
  }

  method PartTwo(lines: Lines) returns (total: nat)
    requires Rankable(lines, true)
    ensures var hs := ParsedHands(lines, true); total == RankedBids(SortHands(Cards2, HandSize(hs), hs))
  {
    total := CalculateTotalWinnings(lines, true);
  }
}
