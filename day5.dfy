/** Day 5: seed-to-location maps. A map (stage) is an ordered list of
    rules; a rule sends its source range onto a destination range of the
    same length. Part one sends single values through every stage by point
    lookup; part two sends whole ranges through by three-way splitting. */
module Day5 {
  import opened Text

  /** Rust's `Range<usize>`: the half-open interval [start, end). */
  datatype Span = Span(start: nat, end: nat)

  /** `MapRange`: values in `source` go to the same offset in `dest`. */
  datatype MapRange = MapRange(dest: Span, source: Span)

  datatype Map = Map(ranges: seq<MapRange>)

  predicate InSpan(v: int, r: Span) { r.start <= v < r.end }

  function Len(r: Span): nat { if r.start < r.end then r.end - r.start else 0 }

  /** The rules `parse_all_maps` builds: source and destination are
      well-ordered and equally long. */
  predicate ValidRule(rule: MapRange)
  {
    && rule.source.start <= rule.source.end
    && rule.dest.start <= rule.dest.end
    && rule.source.end - rule.source.start == rule.dest.end - rule.dest.start
  }

  predicate ValidRules(rules: seq<MapRange>) { forall i :: 0 <= i < |rules| ==> ValidRule(rules[i]) }

  predicate ValidMaps(maps: seq<Map>) { forall i :: 0 <= i < |maps| ==> ValidRules(maps[i].ranges) }

  /** `range.dest.end - range.dest.start` is computed by part two, so
      splitting needs destination ranges that do not run backwards. */
  predicate StageOk(rules: seq<MapRange>)
  {
    forall i :: 0 <= i < |rules| ==> rules[i].dest.start <= rules[i].dest.end
  }

  /** `rules[k]` is the first rule whose source contains `v`. */
  predicate FirstMatch(rules: seq<MapRange>, v: nat, k: int)
  {
    && 0 <= k < |rules|
    && InSpan(v, rules[k].source)
    && forall j :: 0 <= j < k ==> !InSpan(v, rules[j].source)
  }

  predicate Covered(rules: seq<MapRange>, v: nat)
  {
    exists k :: 0 <= k < |rules| && InSpan(v, rules[k].source)
  }

  // ---------------------------------------------------------------------
  // Part one: point lookup

  /** The `find` / `map` / `None => *s` chain of part one: the first rule
      whose source contains `v` translates it, otherwise `v` stays. */
  function Lookup(rules: seq<MapRange>, v: nat): (r: nat)
    ensures forall k :: FirstMatch(rules, v, k) ==> r == rules[k].dest.start + (v - rules[k].source.start)
    ensures !Covered(rules, v) ==> r == v
  {
    if rules == [] then v
    else if InSpan(v, rules[0].source) then rules[0].dest.start + (v - rules[0].source.start)
    else
      var r := Lookup(rules[1..], v);
      assert forall k :: FirstMatch(rules, v, k) ==> FirstMatch(rules[1..], v, k - 1);
      assert !Covered(rules, v) ==> !Covered(rules[1..], v) by {
        if Covered(rules[1..], v) {
          var k :| 0 <= k < |rules[1..]| && InSpan(v, rules[1..][k].source);
          assert InSpan(v, rules[k + 1].source);
        }
      }
      r
  }

  /** A value inside the source of a (valid) rule lands inside its
      destination. */
  lemma LookupInDest(rules: seq<MapRange>, v: nat, k: int)
    requires ValidRules(rules) && FirstMatch(rules, v, k)
    ensures InSpan(Lookup(rules, v), rules[k].dest)
  {
  }

  /** A value some rule covers has exactly one first match. */
  lemma {:induction false} CoveredHasFirstMatch(rules: seq<MapRange>, v: nat)
    requires Covered(rules, v)
    ensures exists k :: FirstMatch(rules, v, k)
    decreases |rules|
  {
    if InSpan(v, rules[0].source) {
      assert FirstMatch(rules, v, 0);
    } else {
      var k :| 0 <= k < |rules| && InSpan(v, rules[k].source);
      assert InSpan(v, rules[1..][k - 1].source);
      CoveredHasFirstMatch(rules[1..], v);
      var j :| FirstMatch(rules[1..], v, j);
      assert FirstMatch(rules, v, j + 1);
    }
  }

  /** The value of `v` after every stage, in stage order. */
  function Chain(maps: seq<Map>, v: nat): nat
  {
    if maps == [] then v else Chain(maps[1..], Lookup(maps[0].ranges, v))
  }

  /** Every stage on the way has a rule that covers the value. */
  predicate ChainCovered(maps: seq<Map>, v: nat)
  {
    maps == [] || (Covered(maps[0].ranges, v) && ChainCovered(maps[1..], Lookup(maps[0].ranges, v)))
  }

  /** One stage of part one's `fold`: every seed looked up in `rules`. */
  function LookupAll(rules: seq<MapRange>, seeds: seq<nat>): (r: seq<nat>)
    ensures |r| == |seeds|
  {
    seq(|seeds|, i requires 0 <= i < |seeds| => Lookup(rules, seeds[i]))
  }

  /** Part one's `fold` over the maps. */
  function FoldLookup(maps: seq<Map>, seeds: seq<nat>): (r: seq<nat>)
  {
    if maps == [] then seeds else FoldLookup(maps[1..], LookupAll(maps[0].ranges, seeds))
  }

  /** The fold sends each seed separately through the stages in input
      order. */
  lemma {:induction false} FoldLookupIsChain(maps: seq<Map>, seeds: seq<nat>)
    ensures |FoldLookup(maps, seeds)| == |seeds|
    ensures forall i :: 0 <= i < |seeds| ==> FoldLookup(maps, seeds)[i] == Chain(maps, seeds[i])
    decreases |maps|
  {
    if maps != [] {
      FoldLookupIsChain(maps[1..], LookupAll(maps[0].ranges, seeds));
    }
  }

  /** `iter().min()`. */
  function MinOf(s: seq<nat>): (r: Option<nat>)
    ensures r.None? <==> s == []
    ensures r.Some? ==> r.value in s && forall i :: 0 <= i < |s| ==> r.value <= s[i]
  {
    if s == [] then None
    else match MinOf(s[1..])
      case None => Some(s[0])
      case Some(m) => Some(if s[0] <= m then s[0] else m)
  }

  /** Numbers of the first line after the `seeds: ` prefix; tokens that do
      not parse are skipped. */
  function SeedNumbers(lines: Lines): seq<nat>
    requires |lines| >= 1
  {
    ParseAll(SplitWhitespace(TrimStartMatches(lines[0], "seeds: ")))
  }

  /** `part_one`; None stands for the `unwrap` on an empty minimum. */
  function PartOne(lines: Lines): Option<nat>
    requires |lines| >= 1
  {
    MinOf(FoldLookup(ParseAllMaps(lines), SeedNumbers(lines)))
  }

  /** The least of the locations the seeds reach. */
  lemma LeastLocation(maps: seq<Map>, seeds: seq<nat>)
    ensures var r := MinOf(FoldLookup(maps, seeds));
      && (r.None? <==> seeds == [])
      && (r.Some? ==>
            && (exists i :: 0 <= i < |seeds| && r.value == Chain(maps, seeds[i]))
            && (forall i :: 0 <= i < |seeds| ==> r.value <= Chain(maps, seeds[i])))
  {
    FoldLookupIsChain(maps, seeds);
    var locs := FoldLookup(maps, seeds);
    var r := MinOf(locs);
    if r.Some? {
      var i :| 0 <= i < |locs| && locs[i] == r.value;
      assert r.value == Chain(maps, seeds[i]);
    }
  }

  /** Part one's answer is the least location any seed reaches. */
  lemma PartOneIsLeastLocation(lines: Lines)
    requires |lines| >= 1
    ensures var seeds, maps := SeedNumbers(lines), ParseAllMaps(lines);
      && (PartOne(lines).None? <==> seeds == [])
      && (PartOne(lines).Some? ==>
            && (exists i :: 0 <= i < |seeds| && PartOne(lines).value == Chain(maps, seeds[i]))
            && (forall i :: 0 <= i < |seeds| ==> PartOne(lines).value <= Chain(maps, seeds[i])))
  {
    LeastLocation(ParseAllMaps(lines), SeedNumbers(lines));
  }

  // ---------------------------------------------------------------------
  // Part two: range splitting

  function Min(a: nat, b: nat): nat { if a <= b then a else b }

  function Max(a: nat, b: nat): nat { if a <= b then b else a }

  /** The length part two gives a rule: that of its destination. */
  function RuleLen(rule: MapRange): nat
    requires rule.dest.start <= rule.dest.end
  {
    rule.dest.end - rule.dest.start
  }

  /** Part `a` of a range: below the rule's source. */
  function Below(s: Span, rule: MapRange): Span
  {
    Span(s.start, Min(s.end, rule.source.start))
  }

  /** Part `b` of a range: inside the rule's source. */
  function Inside(s: Span, rule: MapRange): Span
    requires rule.dest.start <= rule.dest.end
  {
    Span(Max(s.start, rule.source.start), Min(rule.source.start + RuleLen(rule), s.end))
  }

  /** Part `c` of a range: above the rule's source. */
  function Above(s: Span, rule: MapRange): Span
    requires rule.dest.start <= rule.dest.end
  {
    Span(Max(rule.source.start + RuleLen(rule), s.start), s.end)
  }

  /** Only non-empty parts are pushed. */
  function Keep(s: Span): seq<Span>
  {
    if s.start < s.end then [s] else []
  }

  /** A mapped piece: the part `pre` of an input range that lies in one
      rule's source, and where its first value lands. It is emitted as the
      range of the same length starting there. */
  datatype Piece = Piece(pre: Span, at: nat)

  function Emit(p: Piece): Span
  {
    Span(p.at, p.at + Len(p.pre))
  }

  /** Where the piece puts a value of its pre-image. */
  function Moved(p: Piece, v: nat): int
  {
    p.at + (v - p.pre.start)
  }

  lemma EmitMoves(p: Piece, v: nat)
    requires InSpan(v, p.pre)
    ensures InSpan(Moved(p, v), Emit(p))
  {
  }

  function EmitAll(ps: seq<Piece>): (r: seq<Span>)
    ensures |r| == |ps|
  {
    seq(|ps|, i requires 0 <= i < |ps| => Emit(ps[i]))
  }

  lemma EmitAllAppend(a: seq<Piece>, b: seq<Piece>)
    ensures EmitAll(a + b) == EmitAll(a) + EmitAll(b)
  {
    var l, r := EmitAll(a + b), EmitAll(a) + EmitAll(b);
    forall i | 0 <= i < |l| ensures l[i] == r[i] {
      if i < |a| { assert (a + b)[i] == a[i]; } else { assert (a + b)[i] == b[i - |a|]; }
    }
  }

  /** The mapped piece of part `b`, when `b` is not empty: it lands at
      `b.0 - src + dst`. */
  function Hit(s: Span, rule: MapRange): seq<Piece>
    requires rule.dest.start <= rule.dest.end
  {
    var b := Inside(s, rule);
    if b.start < b.end then [Piece(b, b.start - rule.source.start + rule.dest.start)] else []
  }

  /** The inner `for (start, end) in unmapped` loop for one rule, over the
      whole `unmapped` list: the new `unmapped` (`a` and `c` of every range,
      when not empty, in push order) and the pieces this rule maps. */
  function SplitPieces(u: seq<Span>, rule: MapRange): (seq<Span>, seq<Piece>)
    requires rule.dest.start <= rule.dest.end
    decreases |u|
  {
    if u == [] then ([], [])
    else
      var prev := SplitPieces(u[..|u| - 1], rule);
      var s := u[|u| - 1];
      (prev.0 + Keep(Below(s, rule)) + Keep(Above(s, rule)), prev.1 + Hit(s, rule))
  }

  /** The outer `for range in &map.ranges` loop from rule `k` on, for the
      current `unmapped`: the pieces mapped by rules k.., in push order.
      What is still unmapped after the last rule is dropped. */
  function StageFrom(rules: seq<MapRange>, k: nat, u: seq<Span>): seq<Piece>
    requires StageOk(rules) && k <= |rules|
    decreases |rules| - k
  {
    if k == |rules| then []
    else
      var r := SplitPieces(u, rules[k]);
      r.1 + StageFrom(rules, k + 1, r.0)
  }

  /** What part two's `flat_map` closure returns for one input range. */
  function StageRangeSpec(rules: seq<MapRange>, r: Span): seq<Span>
    requires StageOk(rules)
  {
    EmitAll(StageFrom(rules, 0, [r]))
  }

  lemma SplitPiecesSnoc(u: seq<Span>, i: int, rule: MapRange)
    requires 0 <= i < |u| && rule.dest.start <= rule.dest.end
    ensures SplitPieces(u[..i + 1], rule) ==
      (SplitPieces(u[..i], rule).0 + Keep(Below(u[i], rule)) + Keep(Above(u[i], rule)), SplitPieces(u[..i], rule).1 + Hit(u[i], rule))
  {
    assert u[..i + 1][..i] == u[..i];
  }

  lemma StageFromStep(rules: seq<MapRange>, k: nat, u: seq<Span>)
    requires StageOk(rules) && k < |rules|
    ensures EmitAll(StageFrom(rules, k, u)) ==
      EmitAll(SplitPieces(u, rules[k]).1) + EmitAll(StageFrom(rules, k + 1, SplitPieces(u, rules[k]).0))
  {
    var r := SplitPieces(u, rules[k]);
    EmitAllAppend(r.1, StageFrom(rules, k + 1, r.0));
  }

  lemma AppendAssoc<T>(a: seq<T>, b: seq<T>, c: seq<T>)
    ensures (a + b) + c == a + (b + c)
  {
  }

  /** The body of the inner loop: the three parts of one unmapped range,
      `a` and `c` pushed back when not empty, `b` moved when not empty. */
  method SplitRange(rule: MapRange, s: Span) returns (kept: seq<Span>, moved: seq<Span>)
    requires rule.dest.start <= rule.dest.end
    ensures kept == Keep(Below(s, rule)) + Keep(Above(s, rule))
    ensures moved == EmitAll(Hit(s, rule))
  {
    var dst := rule.dest.start;
    var src := rule.source.start;
    var len := rule.dest.end - rule.dest.start;
    var a := Span(s.start, Min(s.end, src));
    var b := Span(Max(s.start, src), Min(src + len, s.end));
    var c := Span(Max(src + len, s.start), s.end);
    kept := [];
    moved := [];
    if a.start < a.end {
      kept := kept + [a];
    }
    if b.start < b.end {
      moved := moved + [Span(b.start - src + dst, b.end - src + dst)];
    }
    if c.start < c.end {
      kept := kept + [c];
    }
  }

  /** The inner loop of part two for one rule: splits every unmapped range,
      collecting what stays unmapped in `m` and the moved parts in
      `moved`. */
  method SplitAgainst(rule: MapRange, unmapped: seq<Span>) returns (m: seq<Span>, moved: seq<Span>)
    requires rule.dest.start <= rule.dest.end
    ensures m == SplitPieces(unmapped, rule).0
    ensures moved == EmitAll(SplitPieces(unmapped, rule).1)
  {
    m := [];
    moved := [];
    var i := 0;
    while i < |unmapped|
      invariant 0 <= i <= |unmapped|
      invariant m == SplitPieces(unmapped[..i], rule).0
      invariant moved == EmitAll(SplitPieces(unmapped[..i], rule).1)
    {
      var s := unmapped[i];
      SplitPiecesSnoc(unmapped, i, rule);
      EmitAllAppend(SplitPieces(unmapped[..i], rule).1, Hit(s, rule));
      var kept, movedHere := SplitRange(rule, s);
      AppendAssoc(m, Keep(Below(s, rule)), Keep(Above(s, rule)));
      m := m + kept;
      moved := moved + movedHere;
      i := i + 1;
    }
    assert unmapped[..|unmapped|] == unmapped;
  }

  /** Lines 66-93: one input range through one stage, with `mapped` and
      `unmapped` updated rule by rule. */
  method StageRange(rules: seq<MapRange>, start: nat, end: nat) returns (mapped: seq<Span>)
    requires StageOk(rules)
    ensures mapped == StageRangeSpec(rules, Span(start, end))
  {
    mapped := [];
    var unmapped := [Span(start, end)];
    var k := 0;
    while k < |rules|
      invariant 0 <= k <= |rules|
      invariant mapped + EmitAll(StageFrom(rules, k, unmapped)) == StageRangeSpec(rules, Span(start, end))
    {
      var m, moved := SplitAgainst(rules[k], unmapped);
      StageFromStep(rules, k, unmapped);
      AppendAssoc(mapped, moved, EmitAll(StageFrom(rules, k + 1, m)));
      mapped := mapped + moved;
      unmapped := m;
      k := k + 1;
    }
  }

  // Facts about the pieces.

  /** A piece mapped by `rule`: inside the rule's source, non-empty, and
      landing at the same offset in the destination. */
  predicate FromRule(p: Piece, rule: MapRange)
    requires rule.dest.start <= rule.dest.end
  {
    && rule.source.start <= p.pre.start < p.pre.end <= rule.source.start + RuleLen(rule)
    && p.at + rule.source.start == p.pre.start + rule.dest.start
  }

  lemma {:induction false} SplitPiecesFromRule(u: seq<Span>, rule: MapRange)
    requires rule.dest.start <= rule.dest.end
    ensures forall i :: 0 <= i < |SplitPieces(u, rule).1| ==> FromRule(SplitPieces(u, rule).1[i], rule)
    ensures forall i :: 0 <= i < |SplitPieces(u, rule).0| ==> SplitPieces(u, rule).0[i].start < SplitPieces(u, rule).0[i].end
    decreases |u|
  {
    if u != [] {
      SplitPiecesFromRule(u[..|u| - 1], rule);
    }
  }

  /** Every piece of a stage has a non-empty pre-image. */
  lemma {:induction false} StageFromNonEmpty(rules: seq<MapRange>, k: nat, u: seq<Span>)
    requires StageOk(rules) && k <= |rules|
    ensures forall i :: 0 <= i < |StageFrom(rules, k, u)| ==> StageFrom(rules, k, u)[i].pre.start < StageFrom(rules, k, u)[i].pre.end
    decreases |rules| - k
  {
    if k < |rules| {
      var r := SplitPieces(u, rules[k]);
      SplitPiecesFromRule(u, rules[k]);
      StageFromNonEmpty(rules, k + 1, r.0);
    }
  }

  // Counting how often a value occurs, to state "exactly once".

  /** How many of the ranges contain `v`. */
  function Count(u: seq<Span>, v: int): nat
  {
    if u == [] then 0 else (if InSpan(v, u[0]) then 1 else 0) + Count(u[1..], v)
  }

  /** How many pieces have `v` in their pre-image. */
  function PieceCount(ps: seq<Piece>, v: int): nat
  {
    if ps == [] then 0 else (if InSpan(v, ps[0].pre) then 1 else 0) + PieceCount(ps[1..], v)
  }

  lemma {:induction false} CountAppend(a: seq<Span>, b: seq<Span>, v: int)
    ensures Count(a + b, v) == Count(a, v) + Count(b, v)
    decreases |a|
  {
    if a == [] {
      assert a + b == b;
    } else {
      assert (a + b)[1..] == a[1..] + b;
      CountAppend(a[1..], b, v);
    }
  }

  lemma {:induction false} PieceCountAppend(a: seq<Piece>, b: seq<Piece>, v: int)
    ensures PieceCount(a + b, v) == PieceCount(a, v) + PieceCount(b, v)
    decreases |a|
  {
    if a == [] {
      assert a + b == b;
    } else {
      assert (a + b)[1..] == a[1..] + b;
      PieceCountAppend(a[1..], b, v);
    }
  }

  /** A count of zero means no piece holds the value; a count of one means
      exactly one does. */
  lemma {:induction false} PieceCountMeaning(ps: seq<Piece>, v: int)
    ensures PieceCount(ps, v) == 0 <==> forall i :: 0 <= i < |ps| ==> !InSpan(v, ps[i].pre)
    ensures PieceCount(ps, v) == 1 ==>
      exists i :: 0 <= i < |ps| && InSpan(v, ps[i].pre) && forall j :: 0 <= j < |ps| && j != i ==> !InSpan(v, ps[j].pre)
    decreases |ps|
  {
    if ps != [] {
      var tail := ps[1..];
      PieceCountMeaning(tail, v);
      assert forall i :: 1 <= i < |ps| ==> ps[i] == tail[i - 1];
      if PieceCount(ps, v) == 1 {
        if InSpan(v, ps[0].pre) {
          assert PieceCount(tail, v) == 0;
          assert forall j :: 0 <= j < |ps| && j != 0 ==> !InSpan(v, ps[j].pre);
        } else {
          var i :| 0 <= i < |tail| && InSpan(v, tail[i].pre) && forall j :: 0 <= j < |tail| && j != i ==> !InSpan(v, tail[j].pre);
          assert InSpan(v, ps[i + 1].pre);
          assert forall j :: 0 <= j < |ps| && j != i + 1 ==> !InSpan(v, ps[j].pre) by {
            forall j | 0 <= j < |ps| && j != i + 1 ensures !InSpan(v, ps[j].pre) {
              if j > 0 { assert ps[j] == tail[j - 1]; }
            }
          }
        }
      }
    }
  }

  lemma {:induction false} CountMeaning(u: seq<Span>, v: int)
    ensures Count(u, v) == 0 <==> forall i :: 0 <= i < |u| ==> !InSpan(v, u[i])
    decreases |u|
  {
    if u != [] {
      CountMeaning(u[1..], v);
      assert forall i :: 1 <= i < |u| ==> u[i] == u[1..][i - 1];
    }
  }

  /** The three-way split of one range against `[src, src + len)`: exactly
      the values outside the rule's source stay in `a` or `c` (never both),
      exactly the values inside it go to `b`, and no length is gained or
      lost. */
  lemma SplitThree(s: Span, rule: MapRange, v: int)
    requires rule.dest.start <= rule.dest.end
    ensures var src, len := rule.source.start, RuleLen(rule);
      && (InSpan(v, Inside(s, rule)) <==> InSpan(v, s) && src <= v < src + len)
      && (if InSpan(v, Below(s, rule)) then 1 else 0) + (if InSpan(v, Above(s, rule)) then 1 else 0)
         == (if InSpan(v, s) && !(src <= v < src + len) then 1 else 0)
      && Len(Below(s, rule)) + Len(Inside(s, rule)) + Len(Above(s, rule)) == Len(s)
  {
  }

  lemma CountKeep(s: Span, v: int)
    ensures Count(Keep(s), v) == if InSpan(v, s) then 1 else 0
  {
    if s.start < s.end { assert Keep(s)[1..] == []; }
  }

  lemma PieceCountHit(s: Span, rule: MapRange, v: int)
    requires rule.dest.start <= rule.dest.end
    ensures PieceCount(Hit(s, rule), v) == if InSpan(v, Inside(s, rule)) then 1 else 0
  {
    if Hit(s, rule) != [] { assert Hit(s, rule)[1..] == []; }
  }

  /** One range against one rule, counted. */
  lemma SplitOneCount(s: Span, rule: MapRange, v: int)
    requires ValidRule(rule)
    ensures Count(Keep(Below(s, rule)) + Keep(Above(s, rule)), v) == (if InSpan(v, rule.source) then 0 else Count([s], v))
    ensures PieceCount(Hit(s, rule), v) == (if InSpan(v, rule.source) then Count([s], v) else 0)
  {
    SplitThree(s, rule, v);
    CountKeep(Below(s, rule), v);
    CountKeep(Above(s, rule), v);
    PieceCountHit(s, rule, v);
    CountAppend(Keep(Below(s, rule)), Keep(Above(s, rule)), v);
    assert Count([s], v) == (if InSpan(v, s) then 1 else 0) by { assert [s][1..] == []; }
  }

  /** One rule over the whole `unmapped` list: a value in the rule's source
      moves from `unmapped` to the mapped pieces as often as it occurred,
      any other value stays as often as it occurred. */
  lemma {:induction false} SplitPiecesCount(u: seq<Span>, rule: MapRange, v: int)
    requires ValidRule(rule)
    ensures Count(SplitPieces(u, rule).0, v) == (if InSpan(v, rule.source) then 0 else Count(u, v))
    ensures PieceCount(SplitPieces(u, rule).1, v) == (if InSpan(v, rule.source) then Count(u, v) else 0)
    decreases |u|
  {
    if u != [] {
      var init := u[..|u| - 1];
      var prev := SplitPieces(init, rule);
      SplitPiecesCount(init, rule, v);
      SplitPiecesStepCount(u, init, u[|u| - 1], rule, v, prev.0, prev.1);
    }
  }

  /** The count of one more range, split by the rule. */
  lemma SplitPiecesStepCount(u: seq<Span>, init: seq<Span>, s: Span, rule: MapRange, v: int,
                             kept0: seq<Span>, moved0: seq<Piece>)
    requires ValidRule(rule) && u != [] && init == u[..|u| - 1] && s == u[|u| - 1]
    requires (kept0, moved0) == SplitPieces(init, rule)
    requires Count(kept0, v) == (if InSpan(v, rule.source) then 0 else Count(init, v))
    requires PieceCount(moved0, v) == (if InSpan(v, rule.source) then Count(init, v) else 0)
    ensures Count(SplitPieces(u, rule).0, v) == (if InSpan(v, rule.source) then 0 else Count(u, v))
    ensures PieceCount(SplitPieces(u, rule).1, v) == (if InSpan(v, rule.source) then Count(u, v) else 0)
  {
    var kept := Keep(Below(s, rule)) + Keep(Above(s, rule));
    SplitOneCount(s, rule, v);
    FrontLast(u);
    CountAppend(init, [s], v);
    AppendAssoc(kept0, Keep(Below(s, rule)), Keep(Above(s, rule)));
    assert SplitPieces(u, rule) == (kept0 + kept, moved0 + Hit(s, rule));
    CountAppend(kept0, kept, v);
    PieceCountAppend(moved0, Hit(s, rule), v);
  }

  /** Where the pieces of a stage put `v`: where the point lookup puts it. */
  predicate PositionsAgree(ps: seq<Piece>, rules: seq<MapRange>, v: nat)
  {
    forall i :: 0 <= i < |ps| && InSpan(v, ps[i].pre) ==> Moved(ps[i], v) == Lookup(rules, v)
  }

  /** Covered from rule `k` on: by rule k itself or by a later one. */
  lemma CoveredTail(rules: seq<MapRange>, k: nat, v: nat)
    requires k < |rules|
    ensures Covered(rules[k..], v) <==> InSpan(v, rules[k].source) || Covered(rules[k + 1..], v)
    ensures Lookup(rules[k..], v) == if InSpan(v, rules[k].source) then rules[k].dest.start + (v - rules[k].source.start) else Lookup(rules[k + 1..], v)
  {
    var tail := rules[k..];
    assert tail[1..] == rules[k + 1..];
    assert tail[0] == rules[k];
    if Covered(tail, v) {
      var j :| 0 <= j < |tail| && InSpan(v, tail[j].source);
      if j > 0 { assert InSpan(v, rules[k + 1..][j - 1].source); }
    }
    if Covered(rules[k + 1..], v) {
      var j :| 0 <= j < |rules[k + 1..]| && InSpan(v, rules[k + 1..][j].source);
      assert InSpan(v, tail[j + 1].source);
    }
  }

  /** A piece holding `v` means a non-zero count. */
  lemma PieceCountPositive(ps: seq<Piece>, i: int, v: int)
    requires 0 <= i < |ps| && InSpan(v, ps[i].pre)
    ensures PieceCount(ps, v) > 0
  {
    PieceCountMeaning(ps, v);
  }

  lemma {:induction false} StageFromCount(rules: seq<MapRange>, k: nat, u: seq<Span>, v: nat)
    requires StageOk(rules) && ValidRules(rules) && k <= |rules|
    ensures PieceCount(StageFrom(rules, k, u), v) == (if Covered(rules[k..], v) then Count(u, v) else 0)
    ensures PositionsAgree(StageFrom(rules, k, u), rules[k..], v)
    decreases |rules| - k
  {
    if k < |rules| {
      var rule := rules[k];
      var r := SplitPieces(u, rule);
      var rest := StageFrom(rules, k + 1, r.0);
      StageFromCount(rules, k + 1, r.0, v);
      SplitPiecesCount(u, rule, v);
      PieceCountAppend(r.1, rest, v);
      CoveredTail(rules, k, v);
      SplitPiecesFromRule(u, rule);
      var ps := r.1 + rest;
      forall i | 0 <= i < |ps| && InSpan(v, ps[i].pre)
        ensures Moved(ps[i], v) == Lookup(rules[k..], v)
      {
        if i < |r.1| {
          assert ps[i] == r.1[i];
          assert FromRule(r.1[i], rule);
        } else {
          assert ps[i] == rest[i - |r.1|];
          PieceCountPositive(rest, i - |r.1|, v);
        }
      }
    }
  }

  /** The key property of part two against part one, for one input range
      and one stage: a value of the range that some rule covers is carried
      by exactly one emitted piece, and that piece puts it where the point
      lookup puts it; a value no rule covers is carried by no piece, so it
      is dropped rather than passed through. */
  lemma StageRangeAgreesWithLookup(rules: seq<MapRange>, r: Span, v: nat)
    requires StageOk(rules) && ValidRules(rules)
    ensures var ps := StageFrom(rules, 0, [r]);
      && (InSpan(v, r) && Covered(rules, v) ==>
            exists i :: 0 <= i < |ps| && InSpan(v, ps[i].pre)
              && Moved(ps[i], v) == Lookup(rules, v)
              && InSpan(Lookup(rules, v), StageRangeSpec(rules, r)[i])
              && forall j :: 0 <= j < |ps| && j != i ==> !InSpan(v, ps[j].pre))
      && (!(InSpan(v, r) && Covered(rules, v)) ==> forall i :: 0 <= i < |ps| ==> !InSpan(v, ps[i].pre))
  {
    var ps := StageFrom(rules, 0, [r]);
    StageFromCount(rules, 0, [r], v);
    assert rules[0..] == rules;
    assert Count([r], v) == (if InSpan(v, r) then 1 else 0) by {
      assert [r][1..] == [];
    }
    PieceCountMeaning(ps, v);
    if InSpan(v, r) && Covered(rules, v) {
      var i :| 0 <= i < |ps| && InSpan(v, ps[i].pre) && forall j :: 0 <= j < |ps| && j != i ==> !InSpan(v, ps[j].pre);
      EmitMoves(ps[i], v);
    }
  }

  // Lengths: nothing is created, and dropped pieces are all that is lost.

  function TotalLen(u: seq<Span>): nat
  {
    if u == [] then 0 else Len(u[0]) + TotalLen(u[1..])
  }

  function PieceLen(ps: seq<Piece>): nat
  {
    if ps == [] then 0 else Len(ps[0].pre) + PieceLen(ps[1..])
  }

  lemma {:induction false} TotalLenAppend(a: seq<Span>, b: seq<Span>)
    ensures TotalLen(a + b) == TotalLen(a) + TotalLen(b)
    decreases |a|
  {
    if a == [] {
      assert a + b == b;
    } else {
      assert (a + b)[1..] == a[1..] + b;
      TotalLenAppend(a[1..], b);
    }
  }

  lemma {:induction false} PieceLenAppend(a: seq<Piece>, b: seq<Piece>)
    ensures PieceLen(a + b) == PieceLen(a) + PieceLen(b)
    decreases |a|
  {
    if a == [] {
      assert a + b == b;
    } else {
      assert (a + b)[1..] == a[1..] + b;
      PieceLenAppend(a[1..], b);
    }
  }

  lemma {:induction false} EmitAllLen(ps: seq<Piece>)
    ensures TotalLen(EmitAll(ps)) == PieceLen(ps)
    decreases |ps|
  {
    if ps != [] {
      assert EmitAll(ps)[1..] == EmitAll(ps[1..]);
      EmitAllLen(ps[1..]);
    }
  }

  /** What is still in `unmapped` after the last rule (and is dropped). */
  function LeftoverFrom(rules: seq<MapRange>, k: nat, u: seq<Span>): seq<Span>
    requires StageOk(rules) && k <= |rules|
    decreases |rules| - k
  {
    if k == |rules| then u else LeftoverFrom(rules, k + 1, SplitPieces(u, rules[k]).0)
  }

  lemma KeepLen(s: Span)
    ensures TotalLen(Keep(s)) == Len(s)
  {
    if s.start < s.end { assert Keep(s)[1..] == []; }
  }

  lemma HitLen(s: Span, rule: MapRange)
    requires rule.dest.start <= rule.dest.end
    ensures PieceLen(Hit(s, rule)) == Len(Inside(s, rule))
  {
    if Hit(s, rule) != [] { assert Hit(s, rule)[1..] == []; }
  }

  lemma SplitOneLen(s: Span, rule: MapRange)
    requires rule.dest.start <= rule.dest.end
    ensures TotalLen(Keep(Below(s, rule)) + Keep(Above(s, rule))) + PieceLen(Hit(s, rule)) == TotalLen([s])
  {
    SplitThree(s, rule, 0);
    KeepLen(Below(s, rule));
    KeepLen(Above(s, rule));
    HitLen(s, rule);
    TotalLenAppend(Keep(Below(s, rule)), Keep(Above(s, rule)));
    assert TotalLen([s]) == Len(s) by { assert [s][1..] == []; }
  }

  /** The invariant of the inner loop: the mapped length plus the unmapped
      length is the length before the rule. */
  lemma {:induction false} SplitPiecesLen(u: seq<Span>, rule: MapRange)
    requires rule.dest.start <= rule.dest.end
    ensures TotalLen(SplitPieces(u, rule).0) + PieceLen(SplitPieces(u, rule).1) == TotalLen(u)
    decreases |u|
  {
    if u != [] {
      var init := u[..|u| - 1];
      var prev := SplitPieces(init, rule);
      SplitPiecesLen(init, rule);
      var s := u[|u| - 1];
      var kept := Keep(Below(s, rule)) + Keep(Above(s, rule));
      SplitOneLen(s, rule);
      assert u == init + [s];
      TotalLenAppend(init, [s]);
      AppendAssoc(prev.0, Keep(Below(s, rule)), Keep(Above(s, rule)));
      TotalLenAppend(prev.0, kept);
      PieceLenAppend(prev.1, Hit(s, rule));
    }
  }

  lemma {:induction false} StageLen(rules: seq<MapRange>, k: nat, u: seq<Span>)
    requires StageOk(rules) && k <= |rules|
    ensures TotalLen(EmitAll(StageFrom(rules, k, u))) + TotalLen(LeftoverFrom(rules, k, u)) == TotalLen(u)
    decreases |rules| - k
  {
    if k < |rules| {
      var r := SplitPieces(u, rules[k]);
      var rest := StageFrom(rules, k + 1, r.0);
      SplitPiecesLen(u, rules[k]);
      StageLen(rules, k + 1, r.0);
      EmitAllAppend(r.1, rest);
      TotalLenAppend(EmitAll(r.1), EmitAll(rest));
      EmitAllLen(r.1);
    }
  }

  /** The loop invariant of the rule loop, over a whole stage: the emitted
      length plus the dropped length is the input range's length. */
  lemma StageRangeLength(rules: seq<MapRange>, r: Span)
    requires StageOk(rules)
    ensures TotalLen(StageRangeSpec(rules, r)) + TotalLen(LeftoverFrom(rules, 0, [r])) == Len(r)
  {
    StageLen(rules, 0, [r]);
    assert TotalLen([r]) == Len(r) by { assert [r][1..] == []; }
  }

  // Several ranges, several stages.

  predicate InSpans(v: int, u: seq<Span>) { exists i :: 0 <= i < |u| && InSpan(v, u[i]) }

  /** One stage of part two's `fold`: the `flat_map` over the ranges. */
  function StageAll(rules: seq<MapRange>, u: seq<Span>): seq<Span>
    requires StageOk(rules)
  {
    if u == [] then [] else StageRangeSpec(rules, u[0]) + StageAll(rules, u[1..])
  }

  predicate StagesOk(maps: seq<Map>) { forall i :: 0 <= i < |maps| ==> StageOk(maps[i].ranges) }

  function FoldStages(maps: seq<Map>, u: seq<Span>): seq<Span>
    requires StagesOk(maps)
  {
    if maps == [] then u else FoldStages(maps[1..], StageAll(maps[0].ranges, u))
  }

  /** A value carried by an emitted piece came from a pre-image value. */
  lemma EmittedValue(p: Piece, w: int) returns (v: nat)
    requires InSpan(w, Emit(p))
    ensures InSpan(v, p.pre) && Moved(p, v) == w
  {
    v := w - p.at + p.pre.start;
  }

  /** A value carried by a piece of a stage is covered and in the range. */
  lemma PieceOfStage(rules: seq<MapRange>, r: Span, v: nat, i: int)
    requires StageOk(rules) && ValidRules(rules)
    requires 0 <= i < |StageFrom(rules, 0, [r])| && InSpan(v, StageFrom(rules, 0, [r])[i].pre)
    ensures InSpan(v, r) && Covered(rules, v)
  {
    StageRangeAgreesWithLookup(rules, r, v);
  }

  /** Every value one range's stage emits is the point lookup of a covered
      value of the range. */
  lemma StageRangeSound(rules: seq<MapRange>, r: Span, w: int)
    requires StageOk(rules) && ValidRules(rules)
    requires InSpans(w, StageRangeSpec(rules, r))
    ensures exists v: nat :: InSpan(v, r) && Covered(rules, v) && Lookup(rules, v) == w
  {
    var ps := StageFrom(rules, 0, [r]);
    var out := EmitAll(ps);
    assert StageRangeSpec(rules, r) == out;
    var i :| 0 <= i < |out| && InSpan(w, out[i]);
    assert out[i] == Emit(ps[i]);
    var v := EmittedValue(ps[i], w);
    PieceOfStage(rules, r, v, i);
    StageRangeAgreesWithLookup(rules, r, v);
    var k :| 0 <= k < |ps| && InSpan(v, ps[k].pre) && Moved(ps[k], v) == Lookup(rules, v)
      && forall j :: 0 <= j < |ps| && j != k ==> !InSpan(v, ps[j].pre);
    assert k == i;
  }

  lemma {:induction false} StageAllSound(rules: seq<MapRange>, u: seq<Span>, w: int)
    requires StageOk(rules) && ValidRules(rules)
    requires InSpans(w, StageAll(rules, u))
    ensures exists v: nat :: InSpans(v, u) && Covered(rules, v) && Lookup(rules, v) == w
    decreases |u|
  {
    var here := StageRangeSpec(rules, u[0]);
    var out := here + StageAll(rules, u[1..]);
    var i :| 0 <= i < |out| && InSpan(w, out[i]);
    if i < |here| {
      assert InSpan(w, here[i]);
      StageRangeSound(rules, u[0], w);
      var v: nat :| InSpan(v, u[0]) && Covered(rules, v) && Lookup(rules, v) == w;
      assert InSpans(v, u);
    } else {
      assert InSpan(w, StageAll(rules, u[1..])[i - |here|]);
      StageAllSound(rules, u[1..], w);
      var v: nat :| InSpans(v, u[1..]) && Covered(rules, v) && Lookup(rules, v) == w;
      var j :| 0 <= j < |u[1..]| && InSpan(v, u[1..][j]);
      assert InSpan(v, u[j + 1]);
    }
  }

  lemma {:induction false} StageAllComplete(rules: seq<MapRange>, u: seq<Span>, v: nat)
    requires StageOk(rules) && ValidRules(rules)
    requires InSpans(v, u) && Covered(rules, v)
    ensures InSpans(Lookup(rules, v), StageAll(rules, u))
    decreases |u|
  {
    var here := StageRangeSpec(rules, u[0]);
    var rest := StageAll(rules, u[1..]);
    var w := Lookup(rules, v);
    assert StageAll(rules, u) == here + rest;
    if InSpan(v, u[0]) {
      StageRangeAgreesWithLookup(rules, u[0], v);
      var ps := StageFrom(rules, 0, [u[0]]);
      var i :| 0 <= i < |ps| && InSpan(w, here[i]);
      assert InSpans(w, here);
    } else {
      var j :| 0 <= j < |u| && InSpan(v, u[j]);
      assert InSpan(v, u[1..][j - 1]);
      StageAllComplete(rules, u[1..], v);
    }
    InSpansAppend(w, here, rest);
  }

  /** A value in a span of either part is in a span of the whole. */
  lemma InSpansAppend(w: int, a: seq<Span>, b: seq<Span>)
    requires InSpans(w, a) || InSpans(w, b)
    ensures InSpans(w, a + b)
  {
    if InSpans(w, a) {
      var i :| 0 <= i < |a| && InSpan(w, a[i]);
      assert (a + b)[i] == a[i];
    } else {
      var i :| 0 <= i < |b| && InSpan(w, b[i]);
      assert (a + b)[|a| + i] == b[i];
    }
  }

  /** Every value the stages emit is the chained point lookup of an input
      value that every stage covered. */
  lemma {:induction false} FoldStagesSound(maps: seq<Map>, u: seq<Span>, w: int)
    requires ValidMaps(maps) && StagesOk(maps)
    requires InSpans(w, FoldStages(maps, u))
    ensures exists v: nat :: InSpans(v, u) && ChainCovered(maps, v) && Chain(maps, v) == w
    decreases |maps|
  {
    if maps != [] {
      var rules := maps[0].ranges;
      var u1 := StageAll(rules, u);
      FoldStagesSound(maps[1..], u1, w);
      var v1: nat :| InSpans(v1, u1) && ChainCovered(maps[1..], v1) && Chain(maps[1..], v1) == w;
      StageAllSound(rules, u, v1);
      var v: nat :| InSpans(v, u) && Covered(rules, v) && Lookup(rules, v) == v1;
      assert ChainCovered(maps, v) && Chain(maps, v) == w;
    } else {
      var i :| 0 <= i < |u| && InSpan(w, u[i]);
      var v: nat := w;
      assert InSpans(v, u);
    }
  }

  /** Every input value that every stage covers reaches the output at its
      chained point lookup. */
  lemma {:induction false} FoldStagesComplete(maps: seq<Map>, u: seq<Span>, v: nat)
    requires ValidMaps(maps) && StagesOk(maps)
    requires InSpans(v, u) && ChainCovered(maps, v)
    ensures InSpans(Chain(maps, v), FoldStages(maps, u))
    decreases |maps|
  {
    if maps != [] {
      var rules := maps[0].ranges;
      StageAllComplete(rules, u, v);
      FoldStagesComplete(maps[1..], StageAll(rules, u), Lookup(rules, v));
    }
  }

  lemma {:induction false} StageAllNonEmpty(rules: seq<MapRange>, u: seq<Span>)
    requires StageOk(rules)
    ensures forall i :: 0 <= i < |StageAll(rules, u)| ==> StageAll(rules, u)[i].start < StageAll(rules, u)[i].end
    decreases |u|
  {
    if u != [] {
      StageAllNonEmpty(rules, u[1..]);
      StageFromNonEmpty(rules, 0, [u[0]]);
    }
  }

  lemma {:induction false} FoldStagesNonEmpty(maps: seq<Map>, u: seq<Span>)
    requires maps != [] && StagesOk(maps)
    ensures forall i :: 0 <= i < |FoldStages(maps, u)| ==> FoldStages(maps, u)[i].start < FoldStages(maps, u)[i].end
    decreases |maps|
  {
    StageAllNonEmpty(maps[0].ranges, u);
    if |maps| > 1 {
      FoldStagesNonEmpty(maps[1..], StageAll(maps[0].ranges, u));
    }
  }

  /** Chunks of two numbers `(start, len)` become `(start, start + len)`. */
  function SeedSpans(nums: seq<nat>): (r: seq<Span>)
    requires |nums| % 2 == 0
    ensures |r| == |nums| / 2
    ensures forall i :: 0 <= i < |r| ==> r[i] == Span(nums[2 * i], nums[2 * i] + nums[2 * i + 1])
  {
    seq(|nums| / 2, i requires 0 <= i < |nums| / 2 => Span(nums[2 * i], nums[2 * i] + nums[2 * i + 1]))
  }

  /** `locations.iter().map(|r| r.0).min()`. */
  function MinStart(u: seq<Span>): (r: Option<nat>)
    ensures r.None? <==> u == []
    ensures r.Some? ==> (exists i :: 0 <= i < |u| && u[i].start == r.value) && forall i :: 0 <= i < |u| ==> r.value <= u[i].start
  {
    if u == [] then None
    else match MinStart(u[1..])
      case None => Some(u[0].start)
      case Some(m) =>
        assert forall i :: 1 <= i < |u| ==> u[i] == u[1..][i - 1];
        Some(if u[0].start <= m then u[0].start else m)
  }

  /** What `part_two` computes; None stands for the `unwrap` on an empty
      minimum. */
  function PartTwoSpec(lines: Lines): Option<nat>
    requires |lines| >= 1 && |SeedNumbers(lines)| % 2 == 0
  {
    ParseAllMapsValid(lines);
    MinStart(FoldStages(ParseAllMaps(lines), SeedSpans(SeedNumbers(lines))))
  }

  /** The `fold` over the maps of part two, with the `flat_map` over the
      ranges. */
  method FoldStagesLoop(maps: seq<Map>, seeds: seq<Span>) returns (locations: seq<Span>)
    requires StagesOk(maps)
    ensures locations == FoldStages(maps, seeds)
  {
    locations := seeds;
    var j := 0;
    while j < |maps|
      invariant 0 <= j <= |maps|
      invariant FoldStages(maps[j..], locations) == FoldStages(maps, seeds)
    {
      var rules := maps[j].ranges;
      var next := [];
      var i := 0;
      while i < |locations|
        invariant 0 <= i <= |locations|
        invariant next + StageAll(rules, locations[i..]) == StageAll(rules, locations)
      {
        var piece := StageRange(rules, locations[i].start, locations[i].end);
        assert Span(locations[i].start, locations[i].end) == locations[i];
        assert locations[i..][1..] == locations[i + 1..];
        assert StageAll(rules, locations[i..]) == piece + StageAll(rules, locations[i + 1..]);
        AppendAssoc(next, piece, StageAll(rules, locations[i + 1..]));
        next := next + piece;
        i := i + 1;
      }
      assert locations[|locations|..] == [];
      assert next == StageAll(rules, locations);
      assert maps[j..][1..] == maps[j + 1..];
      assert maps[j..][0] == maps[j];
      assert FoldStages(maps[j..], locations) == FoldStages(maps[j + 1..], next);
      locations := next;
      j := j + 1;
    }
    assert maps[|maps|..] == [];
  }

  /** `part_two`. */
  method PartTwo(lines: Lines) returns (result: Option<nat>)
    requires |lines| >= 1 && |SeedNumbers(lines)| % 2 == 0
    ensures result == PartTwoSpec(lines)
  {
    var seeds := SeedSpans(SeedNumbers(lines));
    var maps := ParseAllMapsLoop(lines);
    ParseAllMapsValid(lines);
    var locations := FoldStagesLoop(maps, seeds);
    result := MinStart(locations);
  }

  /** Least location over the values of some ranges that every stage
      covers. */
  lemma LeastCoveredLocation(maps: seq<Map>, seeds: seq<Span>)
    requires maps != [] && ValidMaps(maps) && StagesOk(maps)
    ensures var r := MinStart(FoldStages(maps, seeds));
      && (r.None? <==> forall v: nat :: InSpans(v, seeds) ==> !ChainCovered(maps, v))
      && (r.Some? ==>
            && (exists v: nat :: InSpans(v, seeds) && ChainCovered(maps, v) && Chain(maps, v) == r.value)
            && (forall v: nat :: InSpans(v, seeds) && ChainCovered(maps, v) ==> r.value <= Chain(maps, v)))
  {
    var out := FoldStages(maps, seeds);
    var r := MinStart(out);
    FoldStagesNonEmpty(maps, seeds);
    forall v: nat | InSpans(v, seeds) && ChainCovered(maps, v)
      ensures r.Some? && r.value <= Chain(maps, v)
    {
      FoldStagesComplete(maps, seeds, v);
      var i :| 0 <= i < |out| && InSpan(Chain(maps, v), out[i]);
    }
    if r.Some? {
      var i :| 0 <= i < |out| && out[i].start == r.value;
      assert InSpans(r.value, out);
      FoldStagesSound(maps, seeds, r.value);
    }
  }

  /** Part two's answer is the least location reached by a seed value that
      every stage covers; seed values some stage does not cover are lost. */
  lemma PartTwoIsLeastCoveredLocation(lines: Lines)
    requires |lines| >= 1 && |SeedNumbers(lines)| % 2 == 0 && ParseAllMaps(lines) != []
    ensures var seeds, maps := SeedSpans(SeedNumbers(lines)), ParseAllMaps(lines);
      && (PartTwoSpec(lines).None? <==> forall v: nat :: InSpans(v, seeds) ==> !ChainCovered(maps, v))
      && (PartTwoSpec(lines).Some? ==>
            && (exists v: nat :: InSpans(v, seeds) && ChainCovered(maps, v) && Chain(maps, v) == PartTwoSpec(lines).value)
            && (forall v: nat :: InSpans(v, seeds) && ChainCovered(maps, v) ==> PartTwoSpec(lines).value <= Chain(maps, v)))
  {
    ParseAllMapsValid(lines);
    LeastCoveredLocation(ParseAllMaps(lines), SeedSpans(SeedNumbers(lines)));
  }

  // ---------------------------------------------------------------------
  // The intended range algorithm: leftovers pass through unchanged.

  /** Pieces that keep their values where they are. */
  function Identity(u: seq<Span>): (ps: seq<Piece>)
    ensures |ps| == |u|
  {
    seq(|u|, i requires 0 <= i < |u| => Piece(u[i], u[i].start))
  }

  /** As `StageFrom`, except that what is unmapped after the last rule is
      emitted as it is. */
  function StageFromPassing(rules: seq<MapRange>, k: nat, u: seq<Span>): seq<Piece>
    requires StageOk(rules) && k <= |rules|
    decreases |rules| - k
  {
    if k == |rules| then Identity(u)
    else
      var r := SplitPieces(u, rules[k]);
      r.1 + StageFromPassing(rules, k + 1, r.0)
  }

  lemma {:induction false} IdentityCount(u: seq<Span>, v: nat)
    ensures PieceCount(Identity(u), v) == Count(u, v)
    decreases |u|
  {
    if u != [] {
      IdentityCount(u[1..], v);
      assert Identity(u)[1..] == Identity(u[1..]);
    }
  }

  lemma {:induction false} StageFromPassingCount(rules: seq<MapRange>, k: nat, u: seq<Span>, v: nat)
    requires StageOk(rules) && ValidRules(rules) && k <= |rules|
    ensures PieceCount(StageFromPassing(rules, k, u), v) == Count(u, v)
    ensures PositionsAgree(StageFromPassing(rules, k, u), rules[k..], v)
    decreases |rules| - k
  {
    if k == |rules| {
      IdentityCount(u, v);
      assert rules[k..] == [];
    } else {
      var rule := rules[k];
      var r := SplitPieces(u, rule);
      var rest := StageFromPassing(rules, k + 1, r.0);
      StageFromPassingCount(rules, k + 1, r.0, v);
      SplitPiecesCount(u, rule, v);
      PieceCountAppend(r.1, rest, v);
      CoveredTail(rules, k, v);
      SplitPiecesFromRule(u, rule);
      var ps := r.1 + rest;
      forall i | 0 <= i < |ps| && InSpan(v, ps[i].pre)
        ensures Moved(ps[i], v) == Lookup(rules[k..], v)
      {
        if i < |r.1| {
          assert ps[i] == r.1[i];
          assert FromRule(r.1[i], rule);
        } else {
          assert ps[i] == rest[i - |r.1|];
          PieceCountPositive(rest, i - |r.1|, v);
        }
      }
    }
  }

  /** With pass-through, every value of the range is carried by exactly one
      piece, at the place the point lookup puts it, covered or not. */
  lemma StagePassingAgreesWithLookup(rules: seq<MapRange>, r: Span, v: nat)
    requires StageOk(rules) && ValidRules(rules)
    ensures var ps := StageFromPassing(rules, 0, [r]);
      && (InSpan(v, r) ==>
            exists i :: 0 <= i < |ps| && InSpan(v, ps[i].pre)
              && Moved(ps[i], v) == Lookup(rules, v)
              && InSpan(Lookup(rules, v), EmitAll(ps)[i])
              && forall j :: 0 <= j < |ps| && j != i ==> !InSpan(v, ps[j].pre))
      && (!InSpan(v, r) ==> forall i :: 0 <= i < |ps| ==> !InSpan(v, ps[i].pre))
  {
    var ps := StageFromPassing(rules, 0, [r]);
    StageFromPassingCount(rules, 0, [r], v);
    assert rules[0..] == rules;
    assert Count([r], v) == (if InSpan(v, r) then 1 else 0) by {
      assert [r][1..] == [];
    }
    PieceCountMeaning(ps, v);
    if InSpan(v, r) {
      var i :| 0 <= i < |ps| && InSpan(v, ps[i].pre) && forall j :: 0 <= j < |ps| && j != i ==> !InSpan(v, ps[j].pre);
      EmitMoves(ps[i], v);
    }
  }

  /** The source as written loses a seed range that no rule covers, although
      part one keeps the same seed: with the single rule `50 98 2`, the range
      [5, 6) gives no output, while the point lookup sends 5 to 5. The
      pass-through stage keeps it. */
  lemma UncoveredRangeIsDropped()
    ensures var rules := [MapRange(Span(50, 52), Span(98, 100))];
      && StageRangeSpec(rules, Span(5, 6)) == []
      && Lookup(rules, 5) == 5
      && EmitAll(StageFromPassing(rules, 0, [Span(5, 6)])) == [Span(5, 6)]
  {
    var rules := [MapRange(Span(50, 52), Span(98, 100))];
    var u := [Span(5, 6)];
    assert u[..0] == [];
    assert Below(Span(5, 6), rules[0]) == Span(5, 6);
    assert Hit(Span(5, 6), rules[0]) == [];
    assert Keep(Above(Span(5, 6), rules[0])) == [];
    assert SplitPieces(u[..0], rules[0]) == ([], []);
    var sp := SplitPieces(u, rules[0]);
    assert sp.0 == [] + [Span(5, 6)] + [] == u;
    assert sp.1 == [] + [] == [];
    assert StageFrom(rules, 0, u) == [];
    assert StageFromPassing(rules, 1, u) == Identity(u);
    assert StageFromPassing(rules, 0, u) == [] + Identity(u);
    assert EmitAll(Identity(u)) == [Span(5, 6)];
  }

  // ---------------------------------------------------------------------
  // parse_all_maps

  predicate IsWordChar(c: char) { 'a' <= c <= 'z' || 'A' <= c <= 'Z' || IsDigit(c) || c == '_' }

  predicate IsWord(s: string) { s != [] && forall i :: 0 <= i < |s| ==> IsWordChar(s[i]) }

  /** `^(?P<source>\w+)-to-(?P<destination>\w+) map:$`, with `\w` read as
      ASCII word characters. */
  predicate IsHeader(line: string)
  {
    && EndsWith(line, " map:")
    && var body := line[..|line| - 5];
       exists i | 0 <= i <= |body| - 4 :: IsHeaderSplit(body, i)
  }

  predicate IsHeaderSplit(body: string, i: int)
  {
    0 <= i <= |body| - 4 && IsWord(body[..i]) && body[i..i + 4] == "-to-" && IsWord(body[i + 4..])
  }

  /** `^(\d+) (\d+) (\d+)$`: three digit groups joined by single spaces. */
  predicate IsRuleLine(line: string)
  {
    var parts := SplitOn(line, " ");
    |parts| == 3 && forall i :: 0 <= i < 3 ==> parts[i] != [] && AllDigits(parts[i])
  }

  /** The rule of a numbers line: destination start, source start, length. */
  function RuleOf(line: string): (r: Option<MapRange>)
    ensures r.Some? ==> ValidRule(r.value)
  {
    var numbers := ParseAll(SplitWhitespace(line));
    if |numbers| == 3 then
      Some(MapRange(Span(numbers[0], numbers[0] + numbers[2]), Span(numbers[1], numbers[1] + numbers[2])))
    else None
  }

  /** How the loop of `parse_all_maps` classifies a line: a map header, a
      numbers line (with its rule when it has three numbers), or anything
      else. */
  datatype LineKind = Header | Numbers(rule: Option<MapRange>) | Other

  function Classify(line: string): LineKind
  {
    if IsHeader(line) then Header
    else if IsRuleLine(line) then Numbers(RuleOf(line))
    else Other
  }

  function Kinds(lines: Lines): (ks: seq<LineKind>)
    ensures |ks| == |lines|
  {
    seq(|lines|, i requires 0 <= i < |lines| => Classify(lines[i]))
  }

  /** The loop of `parse_all_maps` from line `i` on, with the map being
      filled (`curr`) and the maps finished so far (`all`). */
  function ParseFrom(ks: seq<LineKind>, i: nat, curr: seq<MapRange>, all: seq<Map>): seq<Map>
    requires i <= |ks|
    decreases |ks| - i
  {
    if i == |ks| then
      if |curr| > 0 then all + [Map(curr)] else all
    else
      match ks[i]
      case Header => ParseFrom(ks, i + 1, [], all)
      case Numbers(Some(rule)) => ParseFrom(ks, i + 1, curr + [rule], all)
      case Numbers(None) => ParseFrom(ks, i + 1, curr, all)
      case Other =>
        if |curr| > 0 then ParseFrom(ks, i + 1, [], all + [Map(curr)])
        else ParseFrom(ks, i + 1, curr, all)
  }

  function ParseAllMaps(lines: Lines): seq<Map>
  {
    ParseFrom(Kinds(lines), 0, [], [])
  }

  /** `parse_all_maps`, with its loop, `curr_map` and `all_maps`. */
  method ParseAllMapsLoop(lines: Lines) returns (allMaps: seq<Map>)
    ensures allMaps == ParseAllMaps(lines)
  {
    allMaps := [];
    var curr: seq<MapRange> := [];
    var i := 0;
    while i < |lines|
      invariant 0 <= i <= |lines|
      invariant ParseFrom(Kinds(lines), i, curr, allMaps) == ParseAllMaps(lines)
    {
      var line := lines[i];
      assert Kinds(lines)[i] == Classify(line);
      if IsHeader(line) {
        curr := [];
      } else if IsRuleLine(line) {
        var numbers := ParseAll(SplitWhitespace(line));
        if |numbers| == 3 {
          var dStart, sStart, len := numbers[0], numbers[1], numbers[2];
          curr := curr + [MapRange(Span(dStart, dStart + len), Span(sStart, sStart + len))];
        }
      } else {
        if |curr| > 0 {
          allMaps := allMaps + [Map(curr)];
          curr := [];
        }
      }
      i := i + 1;
    }
    if |curr| > 0 {
      allMaps := allMaps + [Map(curr)];
    }
  }

  predicate MapsWellFormed(maps: seq<Map>)
  {
    forall j :: 0 <= j < |maps| ==> |maps[j].ranges| > 0 && ValidRules(maps[j].ranges)
  }

  /** Every rule a line gives is valid. */
  predicate KindsValid(ks: seq<LineKind>)
  {
    forall i :: 0 <= i < |ks| && ks[i].Numbers? && ks[i].rule.Some? ==> ValidRule(ks[i].rule.value)
  }

  lemma KindsOfLinesValid(lines: Lines)
    ensures KindsValid(Kinds(lines))
  {
  }

  lemma {:induction false} ParseFromWellFormed(ks: seq<LineKind>, i: nat, curr: seq<MapRange>, all: seq<Map>)
    requires i <= |ks| && KindsValid(ks) && ValidRules(curr) && MapsWellFormed(all)
    ensures MapsWellFormed(ParseFrom(ks, i, curr, all))
    decreases |ks| - i
  {
    if i < |ks| {
      match ks[i]
      case Header => ParseFromWellFormed(ks, i + 1, [], all);
      case Numbers(Some(rule)) => ParseFromWellFormed(ks, i + 1, curr + [rule], all);
      case Numbers(None) => ParseFromWellFormed(ks, i + 1, curr, all);
      case Other =>
        if |curr| > 0 {
          ParseFromWellFormed(ks, i + 1, [], all + [Map(curr)]);
        } else {
          ParseFromWellFormed(ks, i + 1, curr, all);
        }
    }
  }

  /** `parse_all_maps` never emits an empty map, and each rule's source and
      destination have the same length. */
  lemma ParseAllMapsWellFormed(lines: Lines)
    ensures MapsWellFormed(ParseAllMaps(lines))
  {
    KindsOfLinesValid(lines);
    ParseFromWellFormed(Kinds(lines), 0, [], []);
  }

  lemma ParseAllMapsValid(lines: Lines)
    ensures ValidMaps(ParseAllMaps(lines)) && StagesOk(ParseAllMaps(lines))
  {
    ParseAllMapsWellFormed(lines);
  }

  function Flatten(maps: seq<Map>): seq<MapRange>
  {
    if maps == [] then [] else maps[0].ranges + Flatten(maps[1..])
  }

  lemma {:induction false} FlattenSnoc(maps: seq<Map>, m: Map)
    ensures Flatten(maps + [m]) == Flatten(maps) + m.ranges
    decreases |maps|
  {
    if maps == [] {
      assert [m][1..] == [];
    } else {
      assert (maps + [m])[1..] == maps[1..] + [m];
      FlattenSnoc(maps[1..], m);
    }
  }

  /** The rules of the numbers lines from line `i` on, in line order. */
  function RulesFrom(ks: seq<LineKind>, i: nat): seq<MapRange>
    requires i <= |ks|
    decreases |ks| - i
  {
    if i == |ks| then []
    else if ks[i].Numbers? && ks[i].rule.Some? then [ks[i].rule.value] + RulesFrom(ks, i + 1)
    else RulesFrom(ks, i + 1)
  }

  /** A header line never directly follows a numbers line. */
  predicate HeadersSeparated(ks: seq<LineKind>)
  {
    forall i :: 0 < i < |ks| && ks[i].Header? ==> !ks[i - 1].Numbers?
  }

  lemma {:induction false} ParseFromKeepsRules(ks: seq<LineKind>, i: nat, curr: seq<MapRange>, all: seq<Map>)
    requires i <= |ks| && HeadersSeparated(ks)
    requires curr != [] ==> 0 < i && ks[i - 1].Numbers?
    ensures Flatten(ParseFrom(ks, i, curr, all)) == Flatten(all) + curr + RulesFrom(ks, i)
    decreases |ks| - i
  {
    if i == |ks| {
      if |curr| > 0 { FlattenSnoc(all, Map(curr)); }
    } else {
      var curr', all' := ParseFromStep(ks, i, curr, all);
      ParseFromKeepsRules(ks, i + 1, curr', all');
    }
  }

  /** One line of `parse_all_maps`: the state it passes on, and the rules
      kept so far and still to come, which it does not change. */
  lemma ParseFromStep(ks: seq<LineKind>, i: nat, curr: seq<MapRange>, all: seq<Map>)
    returns (curr': seq<MapRange>, all': seq<Map>)
    requires i < |ks| && HeadersSeparated(ks)
    requires curr != [] ==> 0 < i && ks[i - 1].Numbers?
    ensures ParseFrom(ks, i, curr, all) == ParseFrom(ks, i + 1, curr', all')
    ensures curr' != [] ==> ks[i].Numbers?
    ensures Flatten(all') + curr' + RulesFrom(ks, i + 1) == Flatten(all) + curr + RulesFrom(ks, i)
  {
    var rest := RulesFrom(ks, i + 1);
    match ks[i]
    case Header =>
      assert curr == [];
      curr', all' := [], all;
    case Numbers(Some(rule)) =>
      curr', all' := curr + [rule], all;
      assert Flatten(all) + (curr + [rule]) + rest == Flatten(all) + curr + ([rule] + rest);
    case Numbers(None) =>
      curr', all' := curr, all;
    case Other =>
      if |curr| > 0 {
        curr', all' := [], all + [Map(curr)];
        FlattenSnoc(all, Map(curr));
      } else {
        curr', all' := curr, all;
      }
  }

  /** When no header line directly follows a numbers line, every rule of
      every numbers line is kept, in line order, across the maps in block
      order. */
  lemma ParseAllMapsKeepsRuleOrder(lines: Lines)
    requires HeadersSeparated(Kinds(lines))
    ensures Flatten(ParseAllMaps(lines)) == RulesFrom(Kinds(lines), 0)
  {
    ParseFromKeepsRules(Kinds(lines), 0, [], []);
  }
}
