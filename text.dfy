/** Text primitives shared by every day: the two failure-carrying wrappers,
    ASCII character classes, and the Rust string operations the solutions
    lean on (`split`, `split_whitespace`, `trim`, `trim_start_matches`,
    `str::parse` for integers), restricted to ASCII text. */
module Text {

  datatype Option<+T> = None | Some(value: T)

  /** The `anyhow::Result` of the solutions: a value or an error message. */
  datatype Result<+T> = Ok(value: T) | Err(msg: string)

  type Lines = seq<string>

  predicate IsDigit(c: char) { '0' <= c <= '9' }

  function DigitValue(c: char): (d: nat)
    requires IsDigit(c)
    ensures d < 10
    ensures d as char == (c as int - '0' as int) as char
  {
    c as int - '0' as int
  }

  /** ASCII members of Rust's `char::is_whitespace`: tab, line feed,
      vertical tab, form feed, carriage return and space. */
  predicate IsWhitespace(c: char) { c == ' ' || 9 <= c as int <= 13 }

  predicate AllDigits(s: string) { forall i :: 0 <= i < |s| ==> IsDigit(s[i]) }

  predicate NoWhitespace(s: string) { forall i :: 0 <= i < |s| ==> !IsWhitespace(s[i]) }

  /** Decimal value of a string of digits, most significant first. */
  function DecimalValue(s: string): nat
    requires AllDigits(s)
    decreases |s|
  {
    if s == [] then 0 else DecimalValue(s[..|s| - 1]) * 10 + DigitValue(s[|s| - 1])
  }

  lemma {:induction false} DecimalValueAppend(s: string, c: char)
    requires AllDigits(s) && IsDigit(c)
    ensures AllDigits(s + [c]) && DecimalValue(s + [c]) == DecimalValue(s) * 10 + DigitValue(c)
  {
    assert (s + [c])[..|s + [c]| - 1] == s;
  }

  lemma {:induction false} DecimalValueBound(s: string)
    requires AllDigits(s)
    ensures DecimalValue(s) < Pow10(|s|)
    decreases |s|
  {
    if s != [] {
      DecimalValueBound(s[..|s| - 1]);
    }
  }

  function Pow10(n: nat): (r: nat)
    ensures r >= 1
  {
    if n == 0 then 1 else 10 * Pow10(n - 1)
  }

  /** `str::parse::<u32>()` / `str::parse::<usize>()`: an optional `+`,
      then one or more digits. */
  function ParseNat(s: string): (r: Option<nat>)
    ensures r.Some? <==> s != [] && (s[0] == '+' ==> |s| > 1 && AllDigits(s[1..])) && (s[0] != '+' ==> AllDigits(s))
  {
    if s == [] then None
    else
      var digits := if s[0] == '+' then s[1..] else s;
      if digits != [] && AllDigits(digits) then Some(DecimalValue(digits)) else None
  }

  /** The message of the error `str::parse` gives for text that is not a
      number: empty text, or a character that is not a digit. */
  function ParseNatMessage(s: string): string
  {
    if s == [] then "cannot parse integer from empty string" else "invalid digit found in string"
  }

  /** `str::parse::<isize>()`: an optional `+` or `-`, then one or more digits. */
  function ParseInt(s: string): (r: Option<int>)
    ensures s != [] && s[0] == '-' ==> (r.Some? <==> |s| > 1 && AllDigits(s[1..]))
    ensures r.Some? && s != [] && s[0] == '-' ==> AllDigits(s[1..]) && r.value == -(DecimalValue(s[1..]) as int)
    ensures s != [] && s[0] != '-' ==> ParseNat(s).Some? == r.Some?
    ensures s != [] && s[0] != '-' && r.Some? ==> r.value == ParseNat(s).value
  {
    if s == [] then None
    else if s[0] == '-' then
      var digits := s[1..];
      if digits != [] && AllDigits(digits) then Some(0 - DecimalValue(digits) as int) else None
    else match ParseNat(s)
      case Some(n) => Some(n)
      case None => None
  }

  lemma ParseNatOfDigits(s: string)
    requires s != [] && AllDigits(s)
    ensures ParseNat(s) == Some(DecimalValue(s))
  {
    assert !IsDigit('+');
    assert s[0] != '+';
  }

  /** `filter_map(|t| t.parse().ok())`: the tokens that parse, as numbers,
      in order; the others are skipped. */
  function ParseAll(tokens: seq<string>): (r: seq<nat>)
    ensures |r| <= |tokens|
  {
    if tokens == [] then []
    else
      var rest := ParseAll(tokens[1..]);
      match ParseNat(tokens[0])
      case Some(n) => [n] + rest
      case None => rest
  }

  /** When every token parses, `ParseAll` keeps them all, in order. */
  lemma {:induction false} ParseAllKeepsAll(tokens: seq<string>)
    requires forall i :: 0 <= i < |tokens| ==> ParseNat(tokens[i]).Some?
    ensures |ParseAll(tokens)| == |tokens|
    ensures forall i :: 0 <= i < |tokens| ==> ParseAll(tokens)[i] == ParseNat(tokens[i]).value
    decreases |tokens|
  {
    if tokens != [] {
      var tail := tokens[1..];
      assert forall i :: 1 <= i < |tokens| ==> tokens[i] == tail[i - 1];
      ParseAllKeepsAll(tail);
    }
  }

  /** When a token does not parse, fewer numbers come out than tokens went
      in. */
  lemma {:induction false} ParseAllDrops(tokens: seq<string>, k: nat)
    requires k < |tokens| && ParseNat(tokens[k]).None?
    ensures |ParseAll(tokens)| < |tokens|
    decreases |tokens|
  {
    if k > 0 {
      var tail := tokens[1..];
      assert tail[k - 1] == tokens[k];
      ParseAllDrops(tail, k - 1);
    }
  }

  /** The numbers `ParseAll` keeps are exactly the values of the tokens
      that parse. */
  lemma {:induction false} ParseAllMeaning(tokens: seq<string>, v: nat)
    ensures v in ParseAll(tokens) <==> exists i :: 0 <= i < |tokens| && ParseNat(tokens[i]) == Some(v)
    decreases |tokens|
  {
    if tokens != [] {
      ParseAllMeaning(tokens[1..], v);
      assert forall i :: 1 <= i < |tokens| ==> tokens[i] == tokens[1..][i - 1];
      if i :| 0 <= i < |tokens| && ParseNat(tokens[i]) == Some(v) {
        if i > 0 {
          assert ParseNat(tokens[1..][i - 1]) == Some(v);
        }
      }
    }
  }

  /** Number of leading characters of `s` that are not whitespace. */
  function TokenLength(s: string): (n: nat)
    ensures n <= |s|
    ensures NoWhitespace(s[..n])
    ensures n < |s| ==> IsWhitespace(s[n])
  {
    if s == [] || IsWhitespace(s[0]) then 0 else 1 + TokenLength(s[1..])
  }

  /** `str::split_whitespace`: the maximal runs of non-whitespace, in order. */
  function SplitWhitespace(s: string): (r: seq<string>)
    ensures forall i :: 0 <= i < |r| ==> r[i] != [] && NoWhitespace(r[i])
    decreases |s|
  {
    if s == [] then []
    else if IsWhitespace(s[0]) then SplitWhitespace(s[1..])
    else
      var n := TokenLength(s);
      [s[..n]] + SplitWhitespace(s[n..])
  }

  lemma {:induction false} TokenLengthOfToken(a: string, rest: string)
    requires NoWhitespace(a) && (rest == [] || IsWhitespace(rest[0]))
    ensures TokenLength(a + rest) == |a|
    decreases |a|
  {
    if a != [] {
      assert (a + rest)[1..] == a[1..] + rest;
      TokenLengthOfToken(a[1..], rest);
    } else {
      assert a + rest == rest;
    }
  }

  /** A token followed by whitespace (or nothing) is the first piece of
      the split. */
  lemma SplitWhitespaceToken(a: string, rest: string)
    requires a != [] && NoWhitespace(a) && (rest == [] || IsWhitespace(rest[0]))
    ensures SplitWhitespace(a + rest) == [a] + SplitWhitespace(rest)
  {
    TokenLengthOfToken(a, rest);
    var s := a + rest;
    assert s[..|a|] == a && s[|a|..] == rest;
  }

  function Concat(ss: seq<string>): string
  {
    if ss == [] then [] else ss[0] + Concat(ss[1..])
  }

  /** `s` with every whitespace character taken out. */
  function RemoveWhitespace(s: string): (r: string)
    ensures NoWhitespace(r)
  {
    if s == [] then [] else (if IsWhitespace(s[0]) then [] else [s[0]]) + RemoveWhitespace(s[1..])
  }

  lemma {:induction false} RemoveWhitespaceAppend(a: string, b: string)
    ensures RemoveWhitespace(a + b) == RemoveWhitespace(a) + RemoveWhitespace(b)
    decreases |a|
  {
    if a != [] {
      assert (a + b)[1..] == a[1..] + b;
      RemoveWhitespaceAppend(a[1..], b);
    } else {
      assert a + b == b;
    }
  }

  lemma {:induction false} RemoveWhitespaceOfToken(s: string)
    requires NoWhitespace(s)
    ensures RemoveWhitespace(s) == s
    decreases |s|
  {
    if s != [] {
      RemoveWhitespaceOfToken(s[1..]);
    }
  }

  /** Gluing the whitespace-separated tokens back together gives the text
      with its whitespace removed: no character is lost, none is moved. */
  lemma {:induction false} ConcatSplitWhitespace(s: string)
    ensures Concat(SplitWhitespace(s)) == RemoveWhitespace(s)
    decreases |s|
  {
    if s == [] {
    } else if IsWhitespace(s[0]) {
      ConcatSplitWhitespace(s[1..]);
    } else {
      var n := TokenLength(s);
      assert s == s[..n] + s[n..];
      RemoveWhitespaceAppend(s[..n], s[n..]);
      RemoveWhitespaceOfToken(s[..n]);
      ConcatSplitWhitespace(s[n..]);
      var r := SplitWhitespace(s);
      assert r == [s[..n]] + SplitWhitespace(s[n..]);
      assert r[1..] == SplitWhitespace(s[n..]);
    }
  }

  predicate StartsWith(s: string, p: string) { |p| <= |s| && s[..|p|] == p }

  predicate EndsWith(s: string, p: string) { |p| <= |s| && s[|s| - |p|..] == p }

  /** `str::split` with a non-empty pattern: the pieces between the
      leftmost non-overlapping occurrences of `pat`. A one-character
      pattern is Rust's split on a `char`. */
  function SplitOn(s: string, pat: string): (r: seq<string>)
    requires pat != []
    ensures |r| >= 1
    decreases |s|
  {
    if StartsWith(s, pat) then [[]] + SplitOn(s[|pat|..], pat)
    else if s == [] then [[]]
    else
      var rest := SplitOn(s[1..], pat);
      [[s[0]] + rest[0]] + rest[1..]
  }

  /** A slice grown by the next element. */
  /** A non-empty sequence is its front followed by its last element. */
  lemma FrontLast<T>(u: seq<T>)
    requires u != []
    ensures u == u[..|u| - 1] + [u[|u| - 1]]
  {
  }

  lemma SliceExtend<T>(s: seq<T>, a: int, b: int)
    requires 0 <= a <= b < |s|
    ensures s[a..b + 1] == s[a..b] + [s[b]]
  {
  }

  lemma AllDigitsSnoc(s: string, c: char)
    requires AllDigits(s) && IsDigit(c)
    ensures AllDigits(s + [c])
  {
  }

  /** The pieces with `sep` put back between them. */
  function JoinWith(ss: seq<string>, sep: string): string
    requires |ss| >= 1
  {
    if |ss| == 1 then ss[0] else ss[0] + sep + JoinWith(ss[1..], sep)
  }

  /** Prefixing a character to the first piece prefixes it to the join. */
  lemma JoinWithConsFirst(c: char, ss: seq<string>, sep: string)
    requires |ss| >= 1
    ensures JoinWith([[c] + ss[0]] + ss[1..], sep) == [c] + JoinWith(ss, sep)
  {
    var t := [[c] + ss[0]] + ss[1..];
    assert t[1..] == ss[1..];
  }

  /** Splitting loses nothing: the pieces joined with the pattern give back
      the original text. */
  lemma {:induction false} JoinSplitOn(s: string, pat: string)
    requires pat != []
    ensures JoinWith(SplitOn(s, pat), pat) == s
    decreases |s|
  {
    if StartsWith(s, pat) {
      var rest := s[|pat|..];
      JoinSplitOn(rest, pat);
      JoinSplitOnPrefix(s, pat, SplitOn(rest, pat));
    } else if s != [] {
      var rest := SplitOn(s[1..], pat);
      JoinSplitOn(s[1..], pat);
      assert SplitOn(s, pat) == [[s[0]] + rest[0]] + rest[1..];
      JoinWithConsFirst(s[0], rest, pat);
      assert s == [s[0]] + s[1..];
    }
  }

  lemma JoinSplitOnPrefix(s: string, pat: string, tail: seq<string>)
    requires pat != [] && StartsWith(s, pat) && tail == SplitOn(s[|pat|..], pat)
    requires JoinWith(tail, pat) == s[|pat|..]
    ensures JoinWith(SplitOn(s, pat), pat) == s
  {
    var t: seq<string> := [[]] + tail;
    assert SplitOn(s, pat) == t;
    assert |t| > 1 && t[0] == [] && t[1..] == tail;
    assert s == pat + s[|pat|..];
  }

  /** Splitting gives a single piece exactly when the pattern does not
      occur. */
  lemma {:induction false} SplitOnSingle(s: string, pat: string)
    requires pat != []
    ensures |SplitOn(s, pat)| == 1 <==> !Contains(s, pat)
    decreases |s|
  {
    if StartsWith(s, pat) {
      assert OccursAt(s, pat, 0);
    } else if s != [] {
      SplitOnSingle(s[1..], pat);
      ContainsTail(s, pat);
    }
  }

  /** Past a first character that does not start the pattern, the pattern
      occurs in the text exactly when it occurs in the rest. */
  lemma ContainsTail(s: string, pat: string)
    requires pat != [] && s != [] && !StartsWith(s, pat)
    ensures Contains(s, pat) <==> Contains(s[1..], pat)
  {
    if Contains(s, pat) {
      var i :| 0 <= i <= |s| - |pat| && OccursAt(s, pat, i);
      assert i != 0;
      assert s[1..][i - 1..i - 1 + |pat|] == s[i..i + |pat|];
      assert OccursAt(s[1..], pat, i - 1);
    }
    if Contains(s[1..], pat) {
      var i :| 0 <= i <= |s| - 1 - |pat| && OccursAt(s[1..], pat, i);
      assert s[i + 1..i + 1 + |pat|] == s[1..][i..i + |pat|];
      assert OccursAt(s, pat, i + 1);
    }
  }

  /** The pattern does not occur in the first piece. */
  lemma {:induction false} SplitOnFirst(s: string, pat: string)
    requires pat != []
    ensures !Contains(SplitOn(s, pat)[0], pat)
    decreases |s|
  {
    if !StartsWith(s, pat) && s != [] {
      var rest := SplitOn(s[1..], pat);
      SplitOnFirst(s[1..], pat);
      JoinSplitOn(s[1..], pat);
      JoinWithStartsWith(rest, pat);
      var first := [s[0]] + rest[0];
      assert SplitOn(s, pat)[0] == first;
      assert s[..|first|] == first;
      FirstPieceClean(s, pat, rest[0]);
    }
  }

  /** A character that does not start the pattern, followed by a piece
      without it, has no occurrence of the pattern either. */
  lemma FirstPieceClean(s: string, pat: string, piece: string)
    requires pat != [] && s != [] && !StartsWith(s, pat) && !Contains(piece, pat)
    requires |piece| < |s| && s[..|piece| + 1] == [s[0]] + piece
    ensures !Contains([s[0]] + piece, pat)
  {
    var first := [s[0]] + piece;
    forall i | 0 <= i <= |first| - |pat| ensures !OccursAt(first, pat, i) {
      if i == 0 {
        assert first[..|pat|] == s[..|pat|];
      } else {
        assert !OccursAt(piece, pat, i - 1);
        assert piece[i - 1..i - 1 + |pat|] == first[i..i + |pat|];
      }
    }
  }

  /** The join starts with the first piece. */
  lemma JoinWithStartsWith(ss: seq<string>, sep: string)
    requires |ss| >= 1
    ensures StartsWith(JoinWith(ss, sep), ss[0])
  {
    if |ss| > 1 {
      assert JoinWith(ss, sep)[..|ss[0]|] == ss[0];
    }
  }

  /** The join starts with the first two pieces and the separator between
      them. */
  lemma JoinWithPrefix(ss: seq<string>, sep: string)
    requires |ss| >= 2
    ensures StartsWith(JoinWith(ss, sep), ss[0] + sep + ss[1])
  {
    JoinWithStartsWith(ss[1..], sep);
    var p := ss[0] + sep + ss[1];
    assert JoinWith(ss, sep) == ss[0] + sep + JoinWith(ss[1..], sep);
    assert JoinWith(ss, sep)[..|p|] == p;
  }

  /** Text without a whitespace character at its start: only leading
      whitespace is removed. */
  function TrimStart(s: string): (r: string)
    ensures r == [] || !IsWhitespace(r[0])
    ensures |r| <= |s| && r == s[|s| - |r|..]
    ensures forall i :: 0 <= i < |s| - |r| ==> IsWhitespace(s[i])
  {
    if s != [] && IsWhitespace(s[0]) then TrimStart(s[1..]) else s
  }

  /** Text without a whitespace character at its end: only trailing
      whitespace is removed. */
  function TrimEnd(s: string): (r: string)
    ensures r == [] || !IsWhitespace(r[|r| - 1])
    ensures |r| <= |s| && r == s[..|r|]
    ensures forall i :: |r| <= i < |s| ==> IsWhitespace(s[i])
  {
    if s != [] && IsWhitespace(s[|s| - 1]) then TrimEnd(s[..|s| - 1]) else s
  }

  /** `str::trim`. */
  function Trim(s: string): string
  {
    TrimEnd(TrimStart(s))
  }

  /** `str::trim_start_matches` with a non-empty pattern: every leading
      repetition of `p` is stripped. */
  function TrimStartMatches(s: string, p: string): (r: string)
    requires p != []
    ensures !StartsWith(r, p)
    ensures |r| <= |s| && r == s[|s| - |r|..]
    decreases |s|
  {
    if StartsWith(s, p) then TrimStartMatches(s[|p|..], p) else s
  }

  /** What `trim_start_matches` removes is whole copies of the pattern. */
  lemma TrimStartMatchesRemovesRepeats(s: string, p: string)
    requires p != []
    ensures IsRepeat(s[..|s| - |TrimStartMatches(s, p)|], p)
  {
    StrippedLength(s, p);
    StrippedRepeats(s, p);
  }

  /** How many characters `trim_start_matches` strips. */
  function Stripped(s: string, p: string): (n: nat)
    requires p != []
    ensures n <= |s|
    decreases |s|
  {
    if StartsWith(s, p) then |p| + Stripped(s[|p|..], p) else 0
  }

  lemma {:induction false} StrippedLength(s: string, p: string)
    requires p != []
    ensures |TrimStartMatches(s, p)| == |s| - Stripped(s, p)
    decreases |s|
  {
    if StartsWith(s, p) {
      StrippedLength(s[|p|..], p);
    }
  }

  lemma {:induction false} StrippedRepeats(s: string, p: string)
    requires p != []
    ensures IsRepeat(s[..Stripped(s, p)], p)
    decreases |s|
  {
    var n := Stripped(s, p);
    if StartsWith(s, p) {
      var t := s[|p|..];
      StrippedRepeats(t, p);
      SliceShift(s, |p|, n);
      RepeatStep(s[..n], p, t[..n - |p|]);
    } else {
      assert s[..n] == [];
    }
  }

  lemma SliceShift(s: string, a: nat, n: nat)
    requires a <= n <= |s|
    ensures s[..n][a..] == s[a..][..n - a]
  {
  }

  /** A copy of `p` followed by copies of `p` is copies of `p`. */
  lemma RepeatStep(q: string, p: string, rest: string)
    requires p != [] && |p| <= |q| && q[..|p|] == p && q[|p|..] == rest && IsRepeat(rest, p)
    ensures IsRepeat(q, p)
  {
  }

  /** Text made of whole copies of `p`, one after another. */
  predicate IsRepeat(q: string, p: string)
    requires p != []
    decreases |q|
  {
    q == [] || (StartsWith(q, p) && IsRepeat(q[|p|..], p))
  }

  /** `str::contains` on another string. */
  predicate Contains(s: string, w: string)
  {
    exists i | 0 <= i <= |s| - |w| :: OccursAt(s, w, i)
  }

  predicate OccursAt(s: string, w: string, i: int)
  {
    0 <= i <= |s| - |w| && s[i..i + |w|] == w
  }

  function Reverse<T>(s: seq<T>): (r: seq<T>)
    ensures |r| == |s|
    ensures forall i :: 0 <= i < |s| ==> r[i] == s[|s| - 1 - i]
  {
    seq(|s|, i requires 0 <= i < |s| => s[|s| - 1 - i])
  }

  lemma OccursReversed(s: string, w: string, i: int)
    requires OccursAt(s, w, i)
    ensures OccursAt(Reverse(s), Reverse(w), |s| - |w| - i)
  {
    var rs, rw, j := Reverse(s), Reverse(w), |s| - |w| - i;
    assert s[i..i + |w|] == w;
    forall k | 0 <= k < |w| ensures rs[j..j + |w|][k] == rw[k] {
      assert rs[j + k] == s[|s| - 1 - j - k];
      assert s[i + |w| - 1 - k] == s[i..i + |w|][|w| - 1 - k];
    }
    assert rs[j..j + |w|] == rw;
  }

  lemma OccursUnreversed(s: string, w: string, j: int)
    requires OccursAt(Reverse(s), Reverse(w), j)
    ensures OccursAt(s, w, |s| - |w| - j)
  {
    var rs, rw, i := Reverse(s), Reverse(w), |s| - |w| - j;
    assert rs[j..j + |w|] == rw;
    forall k | 0 <= k < |w| ensures s[i..i + |w|][k] == w[k] {
      var m := |w| - 1 - k;
      assert rs[j + m] == s[|s| - 1 - j - m];
      assert rw[m] == rs[j..j + |w|][m];
    }
    assert s[i..i + |w|] == w;
  }

  /** A word occurs in a text exactly when its reversal occurs in the
      reversed text. */
  lemma ContainsReverse(s: string, w: string)
    ensures Contains(s, w) <==> Contains(Reverse(s), Reverse(w))
  {
    if Contains(s, w) {
      var i :| 0 <= i <= |s| - |w| && OccursAt(s, w, i);
      OccursReversed(s, w, i);
    }
    if Contains(Reverse(s), Reverse(w)) {
      var j :| 0 <= j <= |s| - |w| && OccursAt(Reverse(s), Reverse(w), j);
      OccursUnreversed(s, w, j);
    }
  }

  /** Sum of a sequence of naturals. */
  function Sum(s: seq<nat>): nat
  {
    if s == [] then 0 else s[0] + Sum(s[1..])
  }

  lemma {:induction false} SumAppend(a: seq<nat>, b: seq<nat>)
    ensures Sum(a + b) == Sum(a) + Sum(b)
    decreases |a|
  {
    if a != [] {
      assert (a + b)[1..] == a[1..] + b;
      SumAppend(a[1..], b);
    } else {
      assert a + b == b;
    }
  }

  lemma SumSnoc(a: seq<nat>, x: nat)
    ensures Sum(a + [x]) == Sum(a) + x
  {
    SumAppend(a, [x]);
  }

  /** A sum of naturals is 0 exactly when every term is. */
  lemma {:induction false} SumZero(s: seq<nat>)
    ensures Sum(s) == 0 <==> forall i :: 0 <= i < |s| ==> s[i] == 0
    decreases |s|
  {
    if s != [] {
      SumZero(s[1..]);
      assert forall i :: 1 <= i < |s| ==> s[i] == s[1..][i - 1];
    }
  }

  // ---------------------------------------------------------------------
  // Filtering: `Iterator::filter`, which keeps order
  // ---------------------------------------------------------------------

  /** The elements satisfying `p`, in their order. */
  function Filter<T>(xs: seq<T>, p: T -> bool): (r: seq<T>)
    ensures |r| <= |xs|
    ensures forall k :: 0 <= k < |r| ==> r[k] in xs && p(r[k])
    ensures forall k :: 0 <= k < |xs| && p(xs[k]) ==> xs[k] in r
    decreases |xs|
  {
    if xs == [] then []
    else
      var rest := Filter(xs[1..], p);
      assert forall k :: 1 <= k < |xs| ==> xs[k] == xs[1..][k - 1];
      (if p(xs[0]) then [xs[0]] else []) + rest
  }

  /** Filtering a concatenation filters each part, keeping their order:
      no element is moved, dropped twice or kept twice. */
  lemma {:induction false} FilterConcat<T>(a: seq<T>, b: seq<T>, p: T -> bool)
    ensures Filter(a + b, p) == Filter(a, p) + Filter(b, p)
    decreases |a|
  {
    if a != [] {
      assert (a + b)[1..] == a[1..] + b;
      FilterConcat(a[1..], b, p);
    } else {
      assert a + b == b;
    }
  }

  /** A single element is kept exactly when it satisfies `p`. */
  lemma FilterSingle<T>(x: T, p: T -> bool)
    ensures Filter([x], p) == if p(x) then [x] else []
  {
    assert [x][1..] == [];
  }

  /** Element `i` is the only one satisfying `p`. */
  predicate OnlyOne<T>(xs: seq<T>, p: T -> bool, i: int)
  {
    0 <= i < |xs| && p(xs[i]) && forall k :: 0 <= k < |xs| && k != i ==> !p(xs[k])
  }

  /** Elements `i` and `j` are the only two satisfying `p`. */
  predicate OnlyTwo<T>(xs: seq<T>, p: T -> bool, i: int, j: int)
  {
    0 <= i < j < |xs| && p(xs[i]) && p(xs[j]) &&
    forall k :: 0 <= k < |xs| && k != i && k != j ==> !p(xs[k])
  }

  lemma FilterNone<T>(xs: seq<T>, p: T -> bool)
    requires forall k :: 0 <= k < |xs| ==> !p(xs[k])
    ensures Filter(xs, p) == []
  {
  }

  lemma {:induction false} FilterOne<T>(xs: seq<T>, p: T -> bool, i: int)
    requires OnlyOne(xs, p, i)
    ensures Filter(xs, p) == [xs[i]]
    decreases |xs|
  {
    var tail := xs[1..];
    if i == 0 {
      FilterNone(tail, p);
    } else {
      assert !p(xs[0]);
      assert OnlyOne(tail, p, i - 1);
      FilterOne(tail, p, i - 1);
    }
  }

  lemma {:induction false} FilterPair<T>(xs: seq<T>, p: T -> bool, i: int, j: int)
    requires OnlyTwo(xs, p, i, j)
    ensures Filter(xs, p) == [xs[i], xs[j]]
    decreases |xs|
  {
    var tail := xs[1..];
    if i == 0 {
      assert OnlyOne(tail, p, j - 1);
      FilterOne(tail, p, j - 1);
    } else {
      assert !p(xs[0]);
      assert OnlyTwo(tail, p, i - 1, j - 1);
      FilterPair(tail, p, i - 1, j - 1);
    }
  }

  lemma {:induction false} FilterLengthOne<T>(xs: seq<T>, p: T -> bool)
    requires |Filter(xs, p)| == 1
    ensures exists i :: OnlyOne(xs, p, i)
    decreases |xs|
  {
    var tail := xs[1..];
    if p(xs[0]) {
      assert Filter(tail, p) == [];
      assert forall k :: 0 <= k < |tail| ==> !p(tail[k]);
      assert OnlyOne(xs, p, 0);
    } else {
      FilterLengthOne(tail, p);
      var i :| OnlyOne(tail, p, i);
      assert OnlyOne(xs, p, i + 1);
    }
  }

  lemma {:induction false} FilterLengthTwo<T>(xs: seq<T>, p: T -> bool)
    requires |Filter(xs, p)| == 2
    ensures exists i, j :: OnlyTwo(xs, p, i, j)
    decreases |xs|
  {
    var tail := xs[1..];
    if p(xs[0]) {
      FilterLengthOne(tail, p);
      var j :| OnlyOne(tail, p, j);
      assert OnlyTwo(xs, p, 0, j + 1);
    } else {
      FilterLengthTwo(tail, p);
      var i, j :| OnlyTwo(tail, p, i, j);
      assert OnlyTwo(xs, p, i + 1, j + 1);
    }
  }

  // ---------------------------------------------------------------------
  // Summing fallible values: the `?` inside a summing loop or `try_fold`
  // ---------------------------------------------------------------------

  /** The values of results that all succeeded. */
  function OkValues<T>(vs: seq<Result<T>>): (r: seq<T>)
    requires forall i :: 0 <= i < |vs| ==> vs[i].Ok?
    ensures |r| == |vs|
  {
    seq(|vs|, i requires 0 <= i < |vs| && vs[i].Ok? => vs[i].value)
  }

  /** The `?` inside the summing loop: the sum of all values, or the error of
      the first line that failed. */
  function SumValues(vs: seq<Result<nat>>): Result<nat>
    decreases |vs|
  {
    if vs == [] then Ok(0)
    else
      match vs[0]
      case Err(e) => Err(e)
      case Ok(v) =>
        match SumValues(vs[1..])
        case Err(e) => Err(e)
        case Ok(s) => Ok(v + s)
  }

  /** Value `i` is the first that failed. */
  predicate FirstError<T>(vs: seq<Result<T>>, i: int)
  {
    0 <= i < |vs| && vs[i].Err? && forall j :: 0 <= j < i ==> vs[j].Ok?
  }

  /** The sum succeeds exactly when every value does, and then adds them
      all; otherwise it carries the error of the first failing value. */
  lemma {:induction false} SumValuesMeaning(vs: seq<Result<nat>>)
    ensures SumValues(vs).Ok? <==> forall i :: 0 <= i < |vs| ==> vs[i].Ok?
    ensures SumValues(vs).Ok? ==> SumValues(vs).value == Sum(OkValues(vs))
    ensures SumValues(vs).Err? ==>
      exists i :: FirstError(vs, i) && vs[i] == Err(SumValues(vs).msg)
    decreases |vs|
  {
    if vs != [] {
      var tail := vs[1..];
      SumValuesMeaning(tail);
      assert forall i :: 0 <= i < |tail| ==> tail[i] == vs[i + 1];
      if vs[0].Ok? && SumValues(tail).Err? {
        var i :| FirstError(tail, i) && tail[i] == Err(SumValues(tail).msg);
        forall j | 0 <= j < i + 1 ensures vs[j].Ok? {
          if j > 0 { assert vs[j] == tail[j - 1]; }
        }
        assert FirstError(vs, i + 1);
      }
      if vs[0].Err? {
        assert FirstError(vs, 0);
      }
      if SumValues(vs).Ok? {
        assert OkValues(vs) == [vs[0].value] + OkValues(tail);
      }
    }
  }

  /** Each successful result passed through `f`, each error kept. */
  function MapOk<T, U>(rs: seq<Result<T>>, f: T -> U): (r: seq<Result<U>>)
    ensures |r| == |rs|
  {
    seq(|rs|, i requires 0 <= i < |rs| => if rs[i].Ok? then Ok(f(rs[i].value)) else Err(rs[i].msg))
  }

  /** `f` applied to each element. */
  function Mapped<T, U>(xs: seq<T>, f: T -> U): (r: seq<U>)
    ensures |r| == |xs|
    ensures forall i :: 0 <= i < |xs| ==> r[i] == f(xs[i])
  {
    seq(|xs|, i requires 0 <= i < |xs| => f(xs[i]))
  }

  /** Mapping one more element appends its image. */
  lemma MappedPrefix<T, U>(xs: seq<T>, f: T -> U, i: nat)
    requires i < |xs|
    ensures Mapped(xs[..i + 1], f) == Mapped(xs[..i], f) + [f(xs[i])]
  {
  }

  /** Summing `f` over fallible values succeeds exactly when every value
      does, and then adds `f` of each; otherwise it carries the first
      error. */
  lemma SumMappedMeaning<T>(rs: seq<Result<T>>, f: T -> nat)
    ensures SumValues(MapOk(rs, f)).Ok? <==> forall i :: 0 <= i < |rs| ==> rs[i].Ok?
    ensures SumValues(MapOk(rs, f)).Err? ==>
      exists i :: FirstError(rs, i) && rs[i].msg == SumValues(MapOk(rs, f)).msg
    ensures SumValues(MapOk(rs, f)).Ok? ==>
      (forall i :: 0 <= i < |rs| ==> rs[i].Ok?) &&
      SumValues(MapOk(rs, f)).value == Sum(Mapped(OkValues(rs), f))
  {
    var vs := MapOk(rs, f);
    SumValuesMeaning(vs);
    assert forall j :: 0 <= j < |rs| ==> (vs[j].Ok? <==> rs[j].Ok?);
    if SumValues(vs).Err? {
      var i :| FirstError(vs, i) && vs[i] == Err(SumValues(vs).msg);
      assert FirstError(rs, i);
    } else {
      assert forall j :: 0 <= j < |rs| ==> rs[j].Ok?;
      assert OkValues(vs) == Mapped(OkValues(rs), f);
    }
  }

  /** The sum so far added to what the rest of the lines give. */
  function AddTo(sum: nat, r: Result<nat>): Result<nat>
  {
    match r
    case Ok(s) => Ok(sum + s)
    case Err(e) => Err(e)
  }

  lemma SumValuesStep(vs: seq<Result<nat>>, i: nat, sum: nat)
    requires i < |vs|
    ensures vs[i].Ok? ==> AddTo(sum, SumValues(vs[i..])) == AddTo(sum + vs[i].value, SumValues(vs[i + 1..]))
    ensures vs[i].Err? ==> AddTo(sum, SumValues(vs[i..])) == vs[i]
  {
    assert vs[i..][0] == vs[i];
    assert vs[i..][1..] == vs[i + 1..];
  }

  lemma {:induction false} SumAtMost(s: seq<nat>, b: nat)
    requires forall i :: 0 <= i < |s| ==> s[i] <= b
    ensures Sum(s) <= b * |s|
    decreases |s|
  {
    if s != [] {
      SumAtMost(s[1..], b);
    }
  }

  /** A `try_fold` that collects: all the values in order, or the error of
      the first result that failed. */
  function Collect<T>(rs: seq<Result<T>>): Result<seq<T>>
    decreases |rs|
  {
    if rs == [] then Ok([])
    else
      match Collect(rs[..|rs| - 1])
      case Err(e) => Err(e)
      case Ok(xs) =>
        match rs[|rs| - 1]
        case Err(e) => Err(e)
        case Ok(x) => Ok(xs + [x])
  }

  /** Collecting succeeds exactly when every result does, and then yields
      their values in order; otherwise it carries the first error. */
  lemma {:induction false} CollectMeaning<T>(rs: seq<Result<T>>)
    ensures Collect(rs).Ok? <==> forall i :: 0 <= i < |rs| ==> rs[i].Ok?
    ensures Collect(rs).Ok? ==> Collect(rs).value == OkValues(rs)
    ensures Collect(rs).Err? ==> exists i :: FirstError(rs, i) && rs[i] == Err(Collect(rs).msg)
    decreases |rs|
  {
    if rs != [] {
      var n := |rs| - 1;
      var init := rs[..n];
      CollectMeaning(init);
      assert forall i :: 0 <= i < n ==> init[i] == rs[i];
      if Collect(init).Err? {
        var i :| FirstError(init, i) && init[i] == Err(Collect(init).msg);
        assert FirstError(rs, i);
      } else if rs[n].Err? {
        assert FirstError(rs, n);
      } else {
        assert OkValues(rs) == OkValues(init) + [rs[n].value];
      }
    }
  }

  /** Once a prefix has failed, collecting one more result keeps its error. */
  lemma CollectErrorStays<T>(rs: seq<Result<T>>, i: nat)
    requires i < |rs| && Collect(rs[..i]).Err?
    ensures Collect(rs[..i + 1]) == Collect(rs[..i])
  {
    assert rs[..i + 1][..i] == rs[..i];
  }

  /** Collecting stops at the first failure: if the results before `i` all
      succeed and result `i` fails, the whole collection fails with it. */
  lemma CollectStopsAt<T>(rs: seq<Result<T>>, i: nat)
    requires i < |rs| && Collect(rs[..i]).Ok? && rs[i].Err?
    ensures Collect(rs) == Err(rs[i].msg)
  {
    assert rs[..i + 1][..i] == rs[..i];
    assert Collect(rs[..i + 1]) == Err(rs[i].msg);
    var j := i + 1;
    while j < |rs|
      invariant i < j <= |rs|
      invariant Collect(rs[..j]) == Err(rs[i].msg)
    {
      CollectErrorStays(rs, j);
      j := j + 1;
    }
    assert rs[..|rs|] == rs;
  }

  /** Collecting one more successful result appends its value. */
  lemma CollectStep<T>(rs: seq<Result<T>>, i: nat, xs: seq<T>)
    requires i < |rs| && Collect(rs[..i]) == Ok(xs) && rs[i].Ok?
    ensures Collect(rs[..i + 1]) == Ok(xs + [rs[i].value])
  {
    assert rs[..i + 1][..i] == rs[..i];
  }
}
