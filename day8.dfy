/** Day 8: walking a network of nodes. Each node has a left and a right
    successor; the first line gives the directions, followed in a cycle.
    Part one counts the steps from `AAA` to `ZZZ`; part two measures a
    cycle length for every node ending in `A` and takes their least
    common multiple. */
module Day8 {
  import opened Text

  /** The network: each node name to its (left, right) successors. */
  type Network = map<string, (string, string)>

  // ---------------------------------------------------------------------
  // parse
  // ---------------------------------------------------------------------

  /** The text between the first and last characters (the parentheses
      `parse` slices off). */
  function Inner(s: string): (r: string)
    requires |s| >= 2
    ensures |r| == |s| - 2 && forall i :: 0 <= i < |r| ==> r[i] == s[i + 1]
  {
    s[1..|s| - 1]
  }

  /** A node line `AAA = (BBB, CCC)` that `parse` reads without a panic:
      " = " occurs, the text after it has two characters to strip, and
      ", " occurs between them. */
  predicate NodeLine(line: string)
  {
    var parts := SplitOn(line, " = ");
    |parts| >= 2 && |parts[1]| >= 2 && |SplitOn(Inner(parts[1]), ", ")| >= 2
  }

  /** The name and successors of a node line: the first piece before
      " = ", and the first two pieces of the stripped second piece. */
  function NodeOf(line: string): (string, (string, string))
    requires NodeLine(line)
  {
    var parts := SplitOn(line, " = ");
    var names := SplitOn(Inner(parts[1]), ", ");
    (parts[0], (names[0], names[1]))
  }

  /** The name is the text before the first " = ", and the successors are
      the text around the first ", " once the parentheses are stripped. */
  lemma NodeOfMeaning(line: string)
    requires NodeLine(line)
    ensures var (name, (l, r)) := NodeOf(line);
      var parts := SplitOn(line, " = ");
      !Contains(name, " = ") && line == name + " = " + JoinWith(parts[1..], " = ") &&
      !Contains(l, ", ") && StartsWith(Inner(parts[1]), l + ", " + r)
  {
    var parts := SplitOn(line, " = ");
    var names := SplitOn(Inner(parts[1]), ", ");
    JoinSplitOn(line, " = ");
    SplitOnFirst(line, " = ");
    JoinSplitOn(Inner(parts[1]), ", ");
    SplitOnFirst(Inner(parts[1]), ", ");
    JoinWithPrefix(names, ", ");
  }

  predicate NodeLines(rows: Lines) { forall i :: 0 <= i < |rows| ==> NodeLine(rows[i]) }

  /** The fold of `parse`: the lines inserted in order, so a later line
      for the same node overwrites an earlier one. */
  function NetworkOf(rows: Lines): Network
    requires NodeLines(rows)
  {
    if rows == [] then map[]
    else
      var n := |rows| - 1;
      NetworkOf(rows[..n])[NodeOf(rows[n]).0 := NodeOf(rows[n]).1]
  }

  /** The network's nodes are exactly the names of the lines. */
  lemma {:induction false} NetworkKeys(rows: Lines, name: string)
    requires NodeLines(rows)
    ensures name in NetworkOf(rows) <==> exists i :: 0 <= i < |rows| && NodeOf(rows[i]).0 == name
  {
    if rows != [] {
      var n := |rows| - 1;
      NetworkKeys(rows[..n], name);
      if exists i :: 0 <= i < n && NodeOf(rows[..n][i]).0 == name {
        var i :| 0 <= i < n && NodeOf(rows[..n][i]).0 == name;
        assert NodeOf(rows[i]).0 == name;
      }
      if exists i :: 0 <= i < |rows| && NodeOf(rows[i]).0 == name {
        var i :| 0 <= i < |rows| && NodeOf(rows[i]).0 == name;
        if i < n {
          assert NodeOf(rows[..n][i]).0 == name;
        }
      }
    }
  }

  /** A node's successors come from the last line that names it. */
  lemma {:induction false} NetworkLastWins(rows: Lines, i: nat)
    requires NodeLines(rows) && i < |rows|
    requires forall j :: i < j < |rows| ==> NodeOf(rows[j]).0 != NodeOf(rows[i]).0
    ensures NodeOf(rows[i]).0 in NetworkOf(rows)
    ensures NetworkOf(rows)[NodeOf(rows[i]).0] == NodeOf(rows[i]).1
  {
    var n := |rows| - 1;
    if i < n {
      forall j | i < j < n ensures NodeOf(rows[..n][j]).0 != NodeOf(rows[..n][i]).0 {
        assert rows[..n][j] == rows[j];
      }
      NetworkLastWins(rows[..n], i);
      assert rows[..n][i] == rows[i];
    }
  }

  /** What `parse` demands of the input: a first line, and a node line
      from the third line on. */
  predicate Parsable(lines: Lines)
  {
    |lines| >= 1 && NodeLines(NodeRows(lines))
  }

  /** The lines after the directions and the skipped line. */
  function NodeRows(lines: Lines): (rows: Lines)
    ensures |lines| >= 2 ==> rows == lines[2..]
    ensures |lines| < 2 ==> rows == []
  {
    if |lines| >= 2 then lines[2..] else []
  }

  /** `parse`: the directions and the network. */
  function Parse(lines: Lines): (string, Network)
    requires Parsable(lines)
  {
    (lines[0], NetworkOf(NodeRows(lines)))
  }

  // ---------------------------------------------------------------------
  // Walking
  // ---------------------------------------------------------------------

  /** The position in the directions after `n` steps, starting over after
      the last one. */
  function Pos(len: nat, n: nat): (p: nat)
    requires len > 0
    ensures p < len
  {
    if n == 0 then 0 else if Pos(len, n - 1) + 1 == len then 0 else Pos(len, n - 1) + 1
  }

  /** The position is the step count modulo the number of directions. */
  lemma {:induction false} PosIsRemainder(len: nat, n: nat)
    requires len > 0
    ensures Pos(len, n) == n % len
  {
    if n > 0 {
      PosIsRemainder(len, n - 1);
      var q, r := (n - 1) / len, (n - 1) % len;
      assert n - 1 == len * q + r;
      if r + 1 == len {
        assert n == len * (q + 1) + 0 by {
          assert len * (q + 1) == len * q + len;
        }
        RemainderUnique(n, len, q + 1, 0);
      } else {
        RemainderUnique(n, len, q, r + 1);
      }
    }
  }

  lemma RemainderUnique(n: int, d: int, q: int, r: int)
    requires d > 0 && n == d * q + r && 0 <= r < d
    ensures n % d == r
  {
    var q', r' := n / d, n % d;
    assert d * (q - q') == r' - r;
    if q - q' >= 1 {
      MulAtLeast(d, q - q');
    } else if q' - q >= 1 {
      MulAtLeast(d, q' - q);
    }
  }

  /** From a pass boundary, the next `i < len` steps are at positions
      `0 .. i`. */
  lemma {:induction false} PosAfter(len: nat, p: nat, i: nat)
    requires len > 0 && Pos(len, p) == 0 && i < len
    ensures Pos(len, p + i) == i
  {
    if i > 0 {
      PosAfter(len, p, i - 1);
    }
  }

  /** Two pass boundaries are at least a full pass apart. */
  lemma PassGap(len: nat, a: nat, b: nat)
    requires len > 0 && Pos(len, a) == 0 && Pos(len, b) == 0 && a < b
    ensures a + len <= b
  {
    if b < a + len {
      PosAfter(len, a, b - a);
    }
  }

  /** One step from `node`: the left successor on 'L', the right one on
      any other character; `None` where the network has no such node. */
  function Step(net: Network, node: string, d: char): (r: Option<string>)
    ensures r.Some? <==> node in net
    ensures node in net ==> r.value == if d == 'L' then net[node].0 else net[node].1
  {
    if node !in net then None else if d == 'L' then Some(net[node].0) else Some(net[node].1)
  }

  /** The node reached after `n` steps from `start`, following the
      directions in a cycle; `None` once a lookup of `network[node]` would
      fail. */
  function Walk(net: Network, dirs: string, start: string, n: nat): Option<string>
    requires dirs != []
  {
    if n == 0 then Some(start)
    else
      match Walk(net, dirs, start, n - 1)
      case None => None
      case Some(node) => Step(net, node, dirs[Pos(|dirs|, n - 1)])
  }

  /** A walk that gets `n` steps far got through every earlier step. */
  lemma {:induction false} WalkDefinedBefore(net: Network, dirs: string, start: string, n: nat, k: nat)
    requires dirs != [] && k <= n && Walk(net, dirs, start, n).Some?
    ensures Walk(net, dirs, start, k).Some?
  {
    if k < n {
      WalkDefinedBefore(net, dirs, start, n - 1, k);
    }
  }

  /** One step of the loops: look up the node and take the successor the
      direction names. The lookup succeeds because the walk gets further. */
  method Advance(net: Network, dirs: string, start: string, node: string, count: nat, i: nat, ghost bound: nat)
    returns (next: string)
    requires dirs != [] && i < |dirs| && Pos(|dirs|, count) == i
    requires Walk(net, dirs, start, count) == Some(node)
    requires count < bound && Walk(net, dirs, start, bound).Some?
    ensures Walk(net, dirs, start, count + 1) == Some(next)
    ensures Pos(|dirs|, count + 1) == if i + 1 < |dirs| then i + 1 else 0
  {
    WalkDefinedBefore(net, dirs, start, bound, count + 1);
    var (l, r) := net[node];
    if dirs[i] == 'L' {
      next := l;
    } else {
      next := r;
    }
  }

  // ---------------------------------------------------------------------
  // part_one
  // ---------------------------------------------------------------------

  /** The loops of `part_one`: the number of steps from `AAA` to the first
      visit of `ZZZ`. The source loops forever (or panics) when `ZZZ` is
      never reached, so a step count that reaches it is required. */
  method StepsToZZZ(net: Network, dirs: string) returns (count: nat)
    requires dirs != []
    requires exists n :: Walk(net, dirs, "AAA", n) == Some("ZZZ")
    ensures count >= 1 && Walk(net, dirs, "AAA", count) == Some("ZZZ")
    ensures forall k :: 0 <= k < count ==> Walk(net, dirs, "AAA", k) != Some("ZZZ")
  {
    ghost var bound: nat :| Walk(net, dirs, "AAA", bound) == Some("ZZZ");
    count := 0;
    var node := "AAA";
    while node != "ZZZ"
      invariant Walk(net, dirs, "AAA", count) == Some(node)
      invariant node != "ZZZ" ==> Pos(|dirs|, count) == 0
      invariant forall k :: 0 <= k < count ==> Walk(net, dirs, "AAA", k) != Some("ZZZ")
      invariant count <= bound
      decreases bound - count
    {
      ghost var passStart := count;
      var i := 0;
      while i < |dirs|
        invariant 0 <= i <= |dirs| && count == passStart + i
        invariant Walk(net, dirs, "AAA", count) == Some(node) && node != "ZZZ"
        invariant i < |dirs| ==> Pos(|dirs|, count) == i
        invariant i == |dirs| ==> Pos(|dirs|, count) == 0
        invariant forall k :: 0 <= k <= count ==> Walk(net, dirs, "AAA", k) != Some("ZZZ")
        invariant count < bound
      {
        node := Advance(net, dirs, "AAA", node, count, i, bound);
        count := count + 1;
        if node == "ZZZ" {
          break;
        }
        i := i + 1;
      }
    }
  }

  /** Part one needs the directions, and a walk from `AAA` that reaches
      `ZZZ`. */
  ghost predicate ReachesZZZ(lines: Lines)
  {
    Parsable(lines) && lines[0] != [] &&
    exists n :: Walk(Parse(lines).1, lines[0], "AAA", n) == Some("ZZZ")
  }

  /** `part_one`: the least number of steps that reaches `ZZZ`. */
  method PartOne(lines: Lines) returns (count: nat)
    requires ReachesZZZ(lines)
    ensures var (dirs, net) := Parse(lines);
      Walk(net, dirs, "AAA", count) == Some("ZZZ") &&
      forall k :: 0 <= k < count ==> Walk(net, dirs, "AAA", k) != Some("ZZZ")
  {
    var (dirs, net) := Parse(lines);
    count := StepsToZZZ(net, dirs);
  }

  // ---------------------------------------------------------------------
  // part_two: one start node
  // ---------------------------------------------------------------------

  predicate EndsInZ(w: Option<string>) { w.Some? && EndsWith(w.value, "Z") }

  /** The number of steps among `1 ..= n` that land on a node ending in
      `Z`. */
  function Hits(net: Network, dirs: string, start: string, n: nat): nat
    requires dirs != []
  {
    if n == 0 then 0 else Hits(net, dirs, start, n - 1) + (if EndsInZ(Walk(net, dirs, start, n)) then 1 else 0)
  }

  /** Fewer hits means fewer steps. */
  lemma {:induction false} HitsBelow(net: Network, dirs: string, start: string, a: nat, b: nat)
    requires dirs != [] && Hits(net, dirs, start, a) < Hits(net, dirs, start, b)
    ensures a < b
    decreases a
  {
    if a > b {
      HitsBelow(net, dirs, start, a - 1, b);
    }
  }

  /** Step `f` is the first to land on a node ending in `Z`. */
  predicate FirstZAt(net: Network, dirs: string, start: string, f: nat)
    requires dirs != []
  {
    f >= 1 && EndsInZ(Walk(net, dirs, start, f)) && Hits(net, dirs, start, f - 1) == 0
  }

  /** Step `e` ends the pass of the directions during which the second
      landing on a node ending in `Z` happens: the loop of `part_two`
      checks `iterate` only between passes. */
  predicate SecondZPassEnds(net: Network, dirs: string, start: string, e: nat)
    requires dirs != []
  {
    e >= |dirs| && Pos(|dirs|, e) == 0 &&
    Hits(net, dirs, start, e) >= 2 && Hits(net, dirs, start, e - |dirs|) < 2
  }

  /** `m` is what the closure of `part_two` returns for `start`: the end of
      the pass with the second `Z` minus the step of the first. */
  ghost predicate Measures(net: Network, dirs: string, start: string, m: nat)
    requires dirs != []
  {
    exists f: nat, e: nat :: FirstZAt(net, dirs, start, f) && SecondZPassEnds(net, dirs, start, e) && m == e - f
  }

  /** The walk from `start` gets through a pass in which it has landed on
      nodes ending in `Z` twice: the closure's loop ends without a panic. */
  ghost predicate Cycles(net: Network, dirs: string, start: string)
    requires dirs != []
  {
    exists n: nat :: n > 0 && Pos(|dirs|, n) == 0 && Hits(net, dirs, start, n) >= 2 && Walk(net, dirs, start, n).Some?
  }

  /** The measure of a start node is unique. */
  lemma MeasureUnique(net: Network, dirs: string, start: string, m1: nat, m2: nat)
    requires dirs != [] && Measures(net, dirs, start, m1) && Measures(net, dirs, start, m2)
    ensures m1 == m2
  {
    var f1: nat, e1: nat :| FirstZAt(net, dirs, start, f1) && SecondZPassEnds(net, dirs, start, e1) && m1 == e1 - f1;
    var f2: nat, e2: nat :| FirstZAt(net, dirs, start, f2) && SecondZPassEnds(net, dirs, start, e2) && m2 == e2 - f2;
    FirstZUnique(net, dirs, start, f1, f2);
    SecondZPassUnique(net, dirs, start, e1, e2);
  }

  lemma FirstZUnique(net: Network, dirs: string, start: string, f1: nat, f2: nat)
    requires dirs != [] && FirstZAt(net, dirs, start, f1) && FirstZAt(net, dirs, start, f2)
    ensures f1 == f2
  {
    if f1 < f2 {
      HitsBelow(net, dirs, start, f2 - 1, f1);
    } else if f2 < f1 {
      HitsBelow(net, dirs, start, f1 - 1, f2);
    }
  }

  lemma SecondZPassUnique(net: Network, dirs: string, start: string, e1: nat, e2: nat)
    requires dirs != [] && SecondZPassEnds(net, dirs, start, e1) && SecondZPassEnds(net, dirs, start, e2)
    ensures e1 == e2
  {
    if e1 < e2 {
      PassGap(|dirs|, e1, e2);
      HitsBelow(net, dirs, start, e2 - |dirs|, e1);
    } else if e2 < e1 {
      PassGap(|dirs|, e2, e1);
      HitsBelow(net, dirs, start, e1 - |dirs|, e2);
    }
  }

  /** The bookkeeping of the closure after `count` steps: `iterate` until
      the second node ending in `Z`, and the step of the first one once
      there has been one. */
  predicate Tracked(net: Network, dirs: string, start: string, count: nat, first: Option<nat>, iterate: bool)
    requires dirs != []
  {
    (iterate <==> Hits(net, dirs, start, count) < 2) &&
    (first.None? <==> Hits(net, dirs, start, count) == 0) &&
    (first.Some? ==> FirstZAt(net, dirs, start, first.value) && first.value <= count)
  }

  /** One step of the closure keeps its bookkeeping: a node ending in `Z`
      either is the first one or stops the iteration. */
  lemma ZStep(net: Network, dirs: string, start: string, prev: nat, count: nat, node: string,
              first: Option<nat>, iterate: bool)
    requires dirs != [] && count == prev + 1 && Walk(net, dirs, start, count) == Some(node)
    requires Tracked(net, dirs, start, prev, first, iterate)
    ensures !EndsWith(node, "Z") ==> Tracked(net, dirs, start, count, first, iterate)
    ensures EndsWith(node, "Z") && first.Some? ==> Tracked(net, dirs, start, count, first, false)
    ensures EndsWith(node, "Z") && first.None? ==> Tracked(net, dirs, start, count, Some(count), iterate)
  {
    assert EndsInZ(Walk(net, dirs, start, count)) <==> EndsWith(node, "Z");
    assert Hits(net, dirs, start, count) ==
      Hits(net, dirs, start, prev) + (if EndsWith(node, "Z") then 1 else 0);
  }

  /** The `for` loop of the closure: one pass of the directions. */
  method ZPass(net: Network, dirs: string, start: string, node: string, count: nat,
               first: Option<nat>, ghost bound: nat)
    returns (node': string, count': nat, first': Option<nat>, iterate': bool)
    requires dirs != [] && Pos(|dirs|, count) == 0 && count + |dirs| <= bound
    requires Walk(net, dirs, start, count) == Some(node) && Walk(net, dirs, start, bound).Some?
    requires Tracked(net, dirs, start, count, first, true)
    ensures count' == count + |dirs| && Pos(|dirs|, count') == 0
    ensures Walk(net, dirs, start, count') == Some(node')
    ensures Tracked(net, dirs, start, count', first', iterate')
  {
    node', count', first', iterate' := node, count, first, true;
    var i := 0;
    while i < |dirs|
      invariant 0 <= i <= |dirs| && count' == count + i
      invariant Walk(net, dirs, start, count') == Some(node')
      invariant Pos(|dirs|, count') == if i < |dirs| then i else 0
      invariant Tracked(net, dirs, start, count', first', iterate')
    {
      node' := Advance(net, dirs, start, node', count', i, bound);
      ghost var prev := count';
      count' := count' + 1;
      ZStep(net, dirs, start, prev, count', node', first', iterate');
      if EndsWith(node', "Z") {
        if first'.Some? {
          iterate' := false;
        } else {
          first' := Some(count');
        }
      }
      i := i + 1;
    }
  }

  /** The closure of `part_two` for one start node: walk whole passes of
      the directions, remember the step of the first node ending in `Z`,
      stop after the pass with the second one. */
  method CycleMeasure(net: Network, dirs: string, start: string) returns (m: nat)
    requires dirs != [] && Cycles(net, dirs, start)
    ensures m >= 1 && Measures(net, dirs, start, m)
  {
    ghost var bound := CycleBound(net, dirs, start);
    var first: Option<nat> := None;
    var count: nat := 0;
    var iterate := true;
    var node := start;
    while iterate
      invariant Looping(net, dirs, start, bound, node, count, first, iterate)
      decreases bound - count
    {
      PassFits(net, dirs, start, count, bound);
      ghost var before := count;
      node, count, first, iterate := ZPass(net, dirs, start, node, count, first, bound);
      PassDone(net, dirs, start, bound, before, node, count, first, iterate);
    }
    m := count - first.value;
    MeasureAtEnd(net, dirs, start, count, first.value, m);
  }

  /** The invariant of the closure's loop, `count` steps in. */
  predicate Looping(net: Network, dirs: string, start: string, bound: nat,
                    node: string, count: nat, first: Option<nat>, iterate: bool)
    requires dirs != []
  {
    Walk(net, dirs, start, count) == Some(node) && Pos(|dirs|, count) == 0 &&
    Tracked(net, dirs, start, count, first, iterate) &&
    (!iterate ==> count >= |dirs| && Hits(net, dirs, start, count - |dirs|) < 2) &&
    count <= bound
  }

  /** A pass that started with fewer than two `Z` nodes keeps the loop's
      invariant. */
  lemma PassDone(net: Network, dirs: string, start: string, bound: nat, before: nat,
                 node: string, count: nat, first: Option<nat>, iterate: bool)
    requires dirs != [] && Hits(net, dirs, start, before) < 2 && count == before + |dirs| <= bound
    requires Walk(net, dirs, start, count) == Some(node) && Pos(|dirs|, count) == 0
    requires Tracked(net, dirs, start, count, first, iterate)
    ensures Looping(net, dirs, start, bound, node, count, first, iterate)
  {
    assert count - |dirs| == before;
  }

  /** A step count at which the closure's loop has certainly stopped. */
  lemma CycleBound(net: Network, dirs: string, start: string) returns (bound: nat)
    requires dirs != [] && Cycles(net, dirs, start)
    ensures bound > 0 && Pos(|dirs|, bound) == 0
    ensures Hits(net, dirs, start, bound) >= 2 && Walk(net, dirs, start, bound).Some?
  {
    bound :| bound > 0 && Pos(|dirs|, bound) == 0 &&
      Hits(net, dirs, start, bound) >= 2 && Walk(net, dirs, start, bound).Some?;
  }

  /** While fewer than two `Z` nodes have been seen, another whole pass
      fits before the bound. */
  lemma PassFits(net: Network, dirs: string, start: string, count: nat, bound: nat)
    requires dirs != [] && Pos(|dirs|, count) == 0 && Pos(|dirs|, bound) == 0
    requires Hits(net, dirs, start, count) < 2 <= Hits(net, dirs, start, bound)
    ensures count + |dirs| <= bound
  {
    HitsBelow(net, dirs, start, count, bound);
    PassGap(|dirs|, count, bound);
  }

  /** When the loop stops, the closure's result is the measure. */
  lemma MeasureAtEnd(net: Network, dirs: string, start: string, count: nat, f: nat, m: nat)
    requires dirs != [] && Pos(|dirs|, count) == 0 && count >= |dirs|
    requires Hits(net, dirs, start, count) >= 2 && Hits(net, dirs, start, count - |dirs|) < 2
    requires FirstZAt(net, dirs, start, f) && f <= count && m == count - f
    ensures m >= 1 && Measures(net, dirs, start, m)
  {
    assert SecondZPassEnds(net, dirs, start, count);
    assert Hits(net, dirs, start, count) <= Hits(net, dirs, start, count - 1) + 1;
    HitsBelow(net, dirs, start, f - 1, count - 1);
  }

  // ---------------------------------------------------------------------
  // part_two
  // ---------------------------------------------------------------------

  /** `starts` lists the network's nodes ending in `A`, each once, in the
      order the map's iteration happens to give. */
  predicate StartNodes(net: Network, starts: seq<string>)
  {
    (forall i :: 0 <= i < |starts| ==> starts[i] in net && EndsWith(starts[i], "A")) &&
    (forall name :: name in net && EndsWith(name, "A") ==> name in starts) &&
    (forall i, j :: 0 <= i < j < |starts| ==> starts[i] != starts[j])
  }

  /** What part two demands: directions, and a walk from each start node
      that completes its closure. */
  ghost predicate AllCycle(lines: Lines, starts: seq<string>)
  {
    Parsable(lines) && lines[0] != [] && StartNodes(Parse(lines).1, starts) &&
    forall i :: 0 <= i < |starts| ==> Cycles(Parse(lines).1, lines[0], starts[i])
  }

  /** The `map` of `part_two` over the start nodes. */
  method Multiples(net: Network, dirs: string, starts: seq<string>) returns (ms: seq<nat>)
    requires dirs != [] && forall i :: 0 <= i < |starts| ==> Cycles(net, dirs, starts[i])
    ensures |ms| == |starts| && AllPositive(ms)
    ensures forall i :: 0 <= i < |ms| ==> Measures(net, dirs, starts[i], ms[i])
  {
    ms := [];
    var i := 0;
    while i < |starts|
      invariant 0 <= i <= |starts| && |ms| == i && AllPositive(ms)
      invariant forall k :: 0 <= k < i ==> Measures(net, dirs, starts[k], ms[k])
    {
      var m := CycleMeasure(net, dirs, starts[i]);
      ms := ms + [m];
      i := i + 1;
    }
  }

  /** `part_two`: the least common multiple of the start nodes' measures. */
  method PartTwo(lines: Lines, starts: seq<string>) returns (multiples: seq<nat>, r: nat)
    requires AllCycle(lines, starts)
    ensures var (dirs, net) := Parse(lines);
      |multiples| == |starts| && AllPositive(multiples) &&
      (forall i :: 0 <= i < |multiples| ==> Measures(net, dirs, starts[i], multiples[i])) &&
      r == LcmOfVec(multiples)
  {
    var (dirs, net) := Parse(lines);
    multiples := Multiples(net, dirs, starts);
    r := LcmOfVec(multiples);
  }

  /** The answer does not depend on the order the map lists its nodes in:
      every enumeration of the start nodes gives the same result. */
  lemma PartTwoOrderFree(net: Network, dirs: string, starts1: seq<string>, starts2: seq<string>,
                         ms1: seq<nat>, ms2: seq<nat>)
    requires dirs != [] && StartNodes(net, starts1) && StartNodes(net, starts2)
    requires |ms1| == |starts1| && AllPositive(ms1) && forall i :: 0 <= i < |ms1| ==> Measures(net, dirs, starts1[i], ms1[i])
    requires |ms2| == |starts2| && AllPositive(ms2) && forall i :: 0 <= i < |ms2| ==> Measures(net, dirs, starts2[i], ms2[i])
    ensures LcmOfVec(ms1) == LcmOfVec(ms2)
  {
    forall i | 0 <= i < |ms1| ensures ms1[i] in ms2 {
      var j :| 0 <= j < |starts2| && starts2[j] == starts1[i];
      MeasureUnique(net, dirs, starts1[i], ms1[i], ms2[j]);
    }
    forall j | 0 <= j < |ms2| ensures ms2[j] in ms1 {
      var i :| 0 <= i < |starts1| && starts1[i] == starts2[j];
      MeasureUnique(net, dirs, starts2[j], ms2[j], ms1[i]);
    }
    LcmOfVecOrderFree(ms1, ms2);
  }

  /** The answer is a common multiple of the measures, and divides every
      other one. */
  lemma PartTwoIsLeastCommonMultiple(ms: seq<nat>, c: int)
    requires AllPositive(ms)
    ensures forall i :: 0 <= i < |ms| ==> Divides(ms[i], LcmOfVec(ms))
    ensures (forall i :: 0 <= i < |ms| ==> Divides(ms[i], c)) ==> Divides(LcmOfVec(ms), c)
  {
    LcmOfVecMultiple(ms);
    if forall i :: 0 <= i < |ms| ==> Divides(ms[i], c) {
      LcmOfVecLeast(ms, c);
    }
  }

  // ---------------------------------------------------------------------
  // gcd, lcm, lcm_of_vec
  // ---------------------------------------------------------------------

  /** Multiplication as a function, so that `Divides` has a term to
      trigger on. */
  function Mul(a: int, b: int): int { a * b }

  ghost predicate Divides(d: int, n: int) { exists k :: n == Mul(d, k) }

  /** `gcd`: Euclid's algorithm. */
  function Gcd(a: nat, b: nat): (r: nat)
    ensures r == 0 <==> a == 0 && b == 0
    decreases b
  {
    if b == 0 then a else Gcd(b, a % b)
  }

  lemma DividesRemainder(d: int, a: nat, b: nat)
    requires b > 0 && Divides(d, a) && Divides(d, b)
    ensures Divides(d, a % b)
  {
    var ka :| a == Mul(d, ka);
    var kb :| b == Mul(d, kb);
    assert a % b == a - (a / b) * b;
    assert a % b == Mul(d, ka - (a / b) * kb);
  }

  lemma DividesCombination(d: int, b: nat, r: nat, a: nat)
    requires b > 0 && r == a % b && Divides(d, b) && Divides(d, r)
    ensures Divides(d, a)
  {
    var kb :| b == Mul(d, kb);
    var kr :| r == Mul(d, kr);
    assert a == (a / b) * b + r;
    assert a == Mul(d, (a / b) * kb + kr);
  }

  /** The result divides both arguments ... */
  lemma {:induction false} GcdDivides(a: nat, b: nat)
    ensures Divides(Gcd(a, b), a) && Divides(Gcd(a, b), b)
    decreases b
  {
    if b == 0 {
      assert a == Mul(a, 1) && 0 == Mul(a, 0);
    } else {
      GcdDivides(b, a % b);
      DividesCombination(Gcd(a, b), b, a % b, a);
    }
  }

  /** ... and every common divisor divides it. */
  lemma {:induction false} GcdGreatest(a: nat, b: nat, c: int)
    requires Divides(c, a) && Divides(c, b)
    ensures Divides(c, Gcd(a, b))
    decreases b
  {
    if b != 0 {
      DividesRemainder(c, a, b);
      GcdGreatest(b, a % b, c);
    }
  }

  lemma BezoutStep(a: int, b: int, q: int, r: int, x: int, y: int)
    requires a == q * b + r
    ensures x * b + y * r == y * a + (x - q * y) * b
  {
    assert y * r == y * a - y * (q * b);
  }

  /** Bezout coefficients from the same recursion. */
  lemma {:induction false} Bezout(a: nat, b: nat) returns (x: int, y: int)
    ensures x * a + y * b == Gcd(a, b)
    decreases b
  {
    if b == 0 {
      x, y := 1, 0;
    } else {
      var x', y' := Bezout(b, a % b);
      BezoutStep(a, b, a / b, a % b, x', y');
      x, y := y', x' - (a / b) * y';
    }
  }

  /** `lcm`: divide by the divisor first, then multiply. `gcd(0, 0)` is 0,
      so the source divides by zero when both arguments are. */
  function Lcm(a: nat, b: nat): nat
    requires a > 0 || b > 0
  {
    a / Gcd(a, b) * b
  }

  lemma QuotientOfMultiple(g: int, k: int)
    requires g > 0
    ensures Mul(g, k) / g == k
  {
    var n := g * k;
    var q, r := n / g, n % g;
    assert n == g * q + r && 0 <= r < g;
    assert g * (k - q) == r;
    if k - q >= 1 {
      MulAtLeast(g, k - q);
    } else if k - q <= -1 {
      MulAtLeast(g, q - k);
    }
  }

  lemma MulAtLeast(g: int, d: int)
    requires g > 0 && d >= 1
    ensures g * d >= g
  {
    assert g * d == g + g * (d - 1);
  }

  /** The least common multiple of two positive numbers is a positive
      common multiple ... */
  lemma LcmCommonMultiple(a: nat, b: nat)
    requires a > 0 && b > 0
    ensures Lcm(a, b) > 0 && Divides(a, Lcm(a, b)) && Divides(b, Lcm(a, b))
  {
    var g := Gcd(a, b);
    GcdDivides(a, b);
    var ka :| a == Mul(g, ka);
    var kb :| b == Mul(g, kb);
    QuotientOfMultiple(g, ka);
    assert ka > 0;
    assert Lcm(a, b) == ka * b;
    assert Lcm(a, b) == Mul(b, ka);
    assert Lcm(a, b) == Mul(a, kb);
  }

  lemma CancelFactor(g: int, u: int, v: int)
    requires g > 0 && g * u == g * v
    ensures u == v
  {
  }

  /** `g * m` is a multiple of `a * b`, the step of the proof that the
      least common multiple divides every common multiple. */
  lemma BezoutMultiple(a: int, b: int, g: int, x: int, y: int, m: int, s: int, t: int)
    requires g == x * a + y * b && m == a * s && m == b * t
    ensures g * m == a * b * (x * t + y * s)
  {
    assert g * m == x * a * m + y * b * m;
    assert x * a * m == x * a * (b * t);
    assert y * b * m == y * b * (a * s);
  }

  lemma LcmLeastAlgebra(a: int, b: int, g: int, l: int, x: int, y: int, m: int, s: int, t: int)
    requires g > 0 && g == x * a + y * b && m == a * s && m == b * t && a * b == g * l
    ensures m == l * (x * t + y * s)
  {
    var k := x * t + y * s;
    BezoutMultiple(a, b, g, x, y, m, s, t);
    assert g * m == (g * l) * k;
    assert (g * l) * k == g * (l * k);
    CancelFactor(g, m, l * k);
  }

  /** ... that divides every other common multiple. */
  lemma LcmLeast(a: nat, b: nat, m: int)
    requires a > 0 && b > 0 && Divides(a, m) && Divides(b, m)
    ensures Divides(Lcm(a, b), m)
  {
    var g := Gcd(a, b);
    GcdDivides(a, b);
    var ka :| a == Mul(g, ka);
    QuotientOfMultiple(g, ka);
    var x, y := Bezout(a, b);
    var s :| m == Mul(a, s);
    var t :| m == Mul(b, t);
    var l := Lcm(a, b);
    assert l == ka * b;
    assert a * b == g * l by {
      assert a * b == (g * ka) * b;
    }
    LcmLeastAlgebra(a, b, g, l, x, y, m, s, t);
    assert m == Mul(l, x * t + y * s);
  }

  lemma LcmZero(a: nat, b: nat)
    requires a > 0 || b > 0
    ensures Lcm(a, b) == 0 <==> a == 0 || b == 0
  {
    if a > 0 && b > 0 {
      LcmCommonMultiple(a, b);
    }
  }

  /** `lcm_of_vec` never computes `lcm(0, 0)`: once a 0 has made the
      accumulator 0, no further 0 follows. */
  predicate LcmDefined(xs: seq<nat>)
  {
    forall i :: 0 <= i < |xs| && 0 in xs[..i] ==> xs[i] > 0
  }

  /** `lcm_of_vec`: fold `lcm` over the numbers, starting from 1. */
  function LcmOfVec(xs: seq<nat>): (r: nat)
    requires LcmDefined(xs)
    ensures xs == [] ==> r == 1
    ensures r == 0 <==> 0 in xs
    decreases |xs|
  {
    if xs == [] then 1
    else
      var n := |xs| - 1;
      assert LcmDefined(xs[..n]);
      var acc := LcmOfVec(xs[..n]);
      assert xs == xs[..n] + [xs[n]];
      LcmZero(acc, xs[n]);
      Lcm(acc, xs[n])
  }

  predicate AllPositive(xs: seq<nat>) { forall i :: 0 <= i < |xs| ==> xs[i] > 0 }

  lemma DividesTransitive(a: int, b: int, c: int)
    requires Divides(a, b) && Divides(b, c)
    ensures Divides(a, c)
  {
    var k1 :| b == Mul(a, k1);
    var k2 :| c == Mul(b, k2);
    assert c == (a * k1) * k2;
    assert c == Mul(a, k1 * k2);
  }

  lemma {:induction false} LcmOfVecMultiple(xs: seq<nat>)
    requires AllPositive(xs)
    ensures forall i :: 0 <= i < |xs| ==> Divides(xs[i], LcmOfVec(xs))
    decreases |xs|
  {
    if xs != [] {
      var n := |xs| - 1;
      var p := xs[..n];
      assert AllPositive(p);
      LcmOfVecMultiple(p);
      var acc := LcmOfVec(p);
      LcmCommonMultiple(acc, xs[n]);
      forall i | 0 <= i < n ensures Divides(xs[i], LcmOfVec(xs)) {
        assert xs[i] == p[i];
        DividesTransitive(xs[i], acc, LcmOfVec(xs));
      }
    }
  }

  lemma {:induction false} LcmOfVecLeast(xs: seq<nat>, m: int)
    requires AllPositive(xs) && forall i :: 0 <= i < |xs| ==> Divides(xs[i], m)
    ensures Divides(LcmOfVec(xs), m)
    decreases |xs|
  {
    if xs == [] {
      assert m == Mul(1, m);
    } else {
      var n := |xs| - 1;
      var p := xs[..n];
      assert AllPositive(p);
      forall i | 0 <= i < n ensures Divides(p[i], m) {
        assert p[i] == xs[i];
      }
      LcmOfVecLeast(p, m);
      LcmLeast(LcmOfVec(p), xs[n], m);
    }
  }

  lemma DividesAntisymmetric(a: int, b: int)
    requires a > 0 && b > 0 && Divides(a, b) && Divides(b, a)
    ensures a == b
  {
    var k :| b == Mul(a, k);
    var j :| a == Mul(b, j);
    MulAtLeast(a, k);
    MulAtLeast(b, j);
  }

  lemma MemberIndex(xs: seq<nat>, x: nat) returns (i: nat)
    requires x in xs
    ensures i < |xs| && xs[i] == x
  {
    i :| 0 <= i < |xs| && xs[i] == x;
  }

  /** The order of the numbers does not matter: only which numbers there
      are. */
  lemma LcmOfVecOrderFree(xs: seq<nat>, ys: seq<nat>)
    requires AllPositive(xs) && AllPositive(ys)
    requires forall i :: 0 <= i < |xs| ==> xs[i] in ys
    requires forall j :: 0 <= j < |ys| ==> ys[j] in xs
    ensures LcmOfVec(xs) == LcmOfVec(ys)
  {
    LcmOfVecMultiple(xs);
    LcmOfVecMultiple(ys);
    forall j | 0 <= j < |ys| ensures Divides(ys[j], LcmOfVec(xs)) {
      var i := MemberIndex(xs, ys[j]);
    }
    forall i | 0 <= i < |xs| ensures Divides(xs[i], LcmOfVec(ys)) {
      var j := MemberIndex(ys, xs[i]);
    }
    LcmOfVecLeast(ys, LcmOfVec(xs));
    LcmOfVecLeast(xs, LcmOfVec(ys));
    DividesAntisymmetric(LcmOfVec(xs), LcmOfVec(ys));
  }
}
