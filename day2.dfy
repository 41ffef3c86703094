/** Day 2: cube games. A line `Game <id>: <round>; <round>; ...` lists
    rounds, each a comma-separated list of `<count> <colour>` entries. Part
    one sums the ids of the games possible with 12 red, 13 green and 14 blue
    cubes; part two sums, over the games, the product of the fewest cubes
    of each colour that make the game possible. */
module Day2 {
  import opened Text

  datatype Round = Round(red: nat, green: nat, blue: nat)

  datatype Game = Game(id: nat, rounds: seq<Round>)

  // ---------------------------------------------------------------------
  // Round::from_str
  // ---------------------------------------------------------------------

  /** One entry of a round: a count of cubes of one colour. */
  datatype Cube = Cube(count: nat, color: string)

  predicate IsColor(c: string) { c == "red" || c == "green" || c == "blue" }

  /** One comma-separated entry: its first whitespace-separated token is
      the count, its second the colour; further tokens are ignored. */
  function ParseCube(entry: string): (r: Result<Cube>)
    ensures r.Ok? ==> IsColor(r.value.color)
  {
    var tokens := SplitWhitespace(Trim(entry));
    if |tokens| == 0 then Err("no count part")
    else match ParseNat(tokens[0])
      case None => Err("invalid count")
      case Some(count) =>
        if |tokens| == 1 then Err("no color part")
        else if IsColor(tokens[1]) then Ok(Cube(count, tokens[1]))
        else Err("unknown color: " + tokens[1])
  }

  /** An entry parses exactly when it has a count and a known colour, and
      then it is that count of that colour. */
  lemma ParseCubeOk(entry: string)
    ensures var tokens := SplitWhitespace(Trim(entry));
      && (ParseCube(entry).Ok? <==> |tokens| >= 2 && ParseNat(tokens[0]).Some? && IsColor(tokens[1]))
      && (ParseCube(entry).Ok? ==> ParseCube(entry).value == Cube(ParseNat(tokens[0]).value, tokens[1]))
  {
  }

  /** An entry written as `split(',')` leaves it, ` <count> <word>`: a
      colour round-trips to its cube, any other word is an unknown colour. */
  lemma ParseCubeFormatted(digits: string, word: string)
    requires digits != [] && AllDigits(digits) && word != [] && NoWhitespace(word)
    ensures IsColor(word) ==> ParseCube(" " + digits + " " + word) == Ok(Cube(DecimalValue(digits), word))
    ensures !IsColor(word) ==> ParseCube(" " + digits + " " + word) == Err("unknown color: " + word)
  {
    var body := digits + " " + word;
    assert " " + digits + " " + word == " " + body;
    assert body[0] == digits[0] && body[|body| - 1] == word[|word| - 1];
    TrimSpaced(body);
    SplitWhitespace2(digits, word);
    ParseNatOfDigits(digits);
    ParseCubeTokens(" " + body, digits, word);
  }

  /** Text with one leading space and no whitespace at either end of the
      rest trims to the rest, and so does the rest itself. */
  lemma TrimSpaced(body: string)
    requires body != [] && !IsWhitespace(body[0]) && !IsWhitespace(body[|body| - 1])
    ensures Trim(" " + body) == body && Trim(body) == body
  {
    assert (" " + body)[1..] == body;
    assert TrimStart(body) == body;
    assert TrimStart(" " + body) == body;
  }

  /** Two tokens separated by one space split into exactly those two. */
  lemma SplitWhitespace2(a: string, b: string)
    requires a != [] && NoWhitespace(a) && b != [] && NoWhitespace(b)
    ensures SplitWhitespace(a + " " + b) == [a, b]
  {
    var rest := " " + b;
    SplitWhitespaceToken(b, []);
    assert b + [] == b;
    assert SplitWhitespace(rest) == [b] by {
      assert rest[1..] == b;
    }
    SplitWhitespaceToken(a, rest);
    assert a + " " + b == a + rest;
  }

  /** An entry of two tokens separated by one space. */
  lemma TwoTokens(e: string, a: string, b: string)
    requires a != [] && NoWhitespace(a) && b != [] && NoWhitespace(b) && e == a + " " + b
    ensures SplitWhitespace(Trim(e)) == [a, b]
  {
    assert e[0] == a[0] && e[|e| - 1] == b[|b| - 1];
    TrimSpaced(e);
    SplitWhitespace2(a, b);
  }

  /** An entry of a single token. */
  lemma OneToken(e: string)
    requires e != [] && NoWhitespace(e)
    ensures SplitWhitespace(Trim(e)) == [e]
  {
    TrimSpaced(e);
    SplitWhitespaceToken(e, []);
    assert e + [] == e;
  }

  /** An entry whose tokens are a count and a word. */
  lemma ParseCubeTokens(entry: string, count: string, word: string)
    requires SplitWhitespace(Trim(entry)) == [count, word]
    ensures ParseNat(count).None? ==> ParseCube(entry) == Err("invalid count")
    ensures ParseNat(count).Some? ==>
      ParseCube(entry) == if IsColor(word) then Ok(Cube(ParseNat(count).value, word)) else Err("unknown color: " + word)
  {
  }

  /** An entry whose only token is a count. */
  lemma ParseCubeCountOnly(entry: string, count: string)
    requires SplitWhitespace(Trim(entry)) == [count] && ParseNat(count).Some?
    ensures ParseCube(entry) == Err("no color part")
  {
  }

  /** The error each malformed shape of entry gives, in the order the
      source checks them: nothing at all, a count that is not a number, a
      count without a colour, and a word that is no colour. */
  lemma ParseCubeErrors()
    ensures ParseCube(" ") == Err("no count part")
    ensures ParseCube("x red") == Err("invalid count")
    ensures ParseCube("3") == Err("no color part")
    ensures ParseCube("3 purple") == Err("unknown color: purple")
  {
    var blank, bad, lone, odd := " ", "x red", "3", "3 purple";
    BlankExample(blank);
    BadCountExample(bad);
    LoneCountExample(lone);
    var count, word, msg := "3", "purple", "unknown color: purple";
    UnknownColorExample(odd, count, word);
    UnknownColorMessage(word, msg);
  }

  lemma BlankExample(e: string)
    requires e == " "
    ensures ParseCube(e) == Err("no count part")
  {
    assert e[1..] == [];
    assert SplitWhitespace(Trim(e)) == [];
  }

  lemma BadCountExample(e: string)
    requires e == "x red"
    ensures ParseCube(e) == Err("invalid count")
  {
    var count, word := "x", "red";
    XRedSpaced(e, count, word);
    TwoTokens(e, count, word);
    NotCount(count);
    ParseCubeTokens(e, count, word);
  }

  lemma XRedSpaced(e: string, count: string, word: string)
    requires e == "x red" && count == "x" && word == "red"
    ensures e == count + " " + word && NoWhitespace(count) && NoWhitespace(word)
  {
  }

  lemma NotCount(count: string)
    requires count == "x"
    ensures ParseNat(count).None?
  {
    assert !IsDigit(count[0]);
  }

  lemma LoneCountExample(e: string)
    requires e == "3"
    ensures ParseCube(e) == Err("no color part")
  {
    LoneDigits(e);
    CountAlone(e);
  }

  lemma LoneDigits(e: string)
    requires e == "3"
    ensures e != [] && NoWhitespace(e) && AllDigits(e)
  {
  }

  /** A count with nothing after it lacks its colour. */
  lemma CountAlone(e: string)
    requires e != [] && NoWhitespace(e) && AllDigits(e)
    ensures ParseCube(e) == Err("no color part")
  {
    OneToken(e);
    ParseNatOfDigits(e);
    ParseCubeCountOnly(e, e);
  }

  lemma UnknownColorExample(e: string, count: string, word: string)
    requires e == "3 purple" && count == "3" && word == "purple"
    ensures ParseCube(e) == Err("unknown color: " + word)
  {
    ThreePurpleSpaced(e, count, word);
    TwoTokens(e, count, word);
    ParseNatOfDigits(count);
    NoColor(word);
    ParseCubeTokens(e, count, word);
  }

  lemma ThreePurpleSpaced(e: string, count: string, word: string)
    requires e == "3 purple" && count == "3" && word == "purple"
    ensures e == count + " " + word && NoWhitespace(count) && NoWhitespace(word)
  {
  }

  lemma UnknownColorMessage(word: string, msg: string)
    requires word == "purple" && msg == "unknown color: purple"
    ensures "unknown color: " + word == msg
  {
  }

  lemma NoColor(w: string)
    requires w == "purple"
    ensures !IsColor(w)
  {
    assert w[0] != "red"[0] && w[0] != "green"[0] && w[0] != "blue"[0];
  }

  /** Total count of the entries of one colour. */
  function Tally(cubes: seq<Cube>, color: string): nat
    decreases |cubes|
  {
    if cubes == [] then 0
    else
      var last := cubes[|cubes| - 1];
      Tally(cubes[..|cubes| - 1], color) + (if last.color == color then last.count else 0)
  }

  /** Counts add up across entries: a repeated colour accumulates. */
  lemma {:induction false} TallyAppend(a: seq<Cube>, b: seq<Cube>, color: string)
    ensures Tally(a + b, color) == Tally(a, color) + Tally(b, color)
    decreases |b|
  {
    if b != [] {
      var n := |b| - 1;
      var ab := a + b;
      assert ab[..|ab| - 1] == a + b[..n];
      assert ab[|ab| - 1] == b[n];
      TallyAppend(a, b[..n], color);
    } else {
      assert a + b == a;
    }
  }

  /** One more entry adds its count to its own colour only. */
  lemma TallySnoc(cubes: seq<Cube>, cube: Cube)
    ensures forall color ::
      Tally(cubes + [cube], color) == Tally(cubes, color) + (if cube.color == color then cube.count else 0)
  {
    assert (cubes + [cube])[..|cubes|] == cubes;
  }

  lemma ColorsDistinct()
    ensures "red" != "green" && "red" != "blue" && "green" != "blue"
  {
    assert "red"[0] != "green"[0] && "red"[0] != "blue"[0] && "green"[0] != "blue"[0];
  }

  /** A colour no entry mentions has total 0. */
  lemma {:induction false} TallyUnmentioned(cubes: seq<Cube>, color: string)
    requires forall i :: 0 <= i < |cubes| ==> cubes[i].color != color
    ensures Tally(cubes, color) == 0
    decreases |cubes|
  {
    if cubes != [] {
      TallyUnmentioned(cubes[..|cubes| - 1], color);
    }
  }

  function RoundOf(cubes: seq<Cube>): Round
  {
    Round(Tally(cubes, "red"), Tally(cubes, "green"), Tally(cubes, "blue"))
  }

  function CubeResults(entries: seq<string>): (r: seq<Result<Cube>>)
    ensures |r| == |entries|
  {
    seq(|entries|, i requires 0 <= i < |entries| => ParseCube(entries[i]))
  }

  /** The round a text describes: every entry parsed, counts summed per
      colour, or the error of the first malformed entry. */
  function RoundSpec(s: string): Result<Round>
  {
    match Collect(CubeResults(SplitOn(s, ",")))
    case Err(e) => Err(e)
    case Ok(cubes) => Ok(RoundOf(cubes))
  }

  /** A round parses exactly when all its entries do, and then each
      colour's count is the total over the entries naming it; otherwise the
      error is that of the first malformed entry. */
  lemma RoundSpecMeaning(s: string)
    ensures var rs := CubeResults(SplitOn(s, ","));
      && (RoundSpec(s).Ok? <==> forall i :: 0 <= i < |rs| ==> rs[i].Ok?)
      && (RoundSpec(s).Ok? ==> (forall i :: 0 <= i < |rs| ==> rs[i].Ok?) && RoundSpec(s).value == RoundOf(OkValues(rs)))
      && (RoundSpec(s).Err? ==> exists i :: FirstError(rs, i) && rs[i] == Err(RoundSpec(s).msg))
  {
    CollectMeaning(CubeResults(SplitOn(s, ",")));
    RoundSpecOfCollect(s);
  }

  lemma RoundSpecOfCollect(s: string)
    ensures var c := Collect(CubeResults(SplitOn(s, ",")));
      && (c.Ok? ==> RoundSpec(s) == Ok(RoundOf(c.value)))
      && (c.Err? ==> RoundSpec(s) == Err(c.msg))
  {
  }

  /** One more parsed entry extends the collected cubes, and the counters
      that already include it are the totals of the longer list. */
  lemma CubeStep(rs: seq<Result<Cube>>, i: nat, cubes: seq<Cube>, cube: Cube, next: seq<Cube>, red: nat, green: nat, blue: nat)
    requires i < |rs| && Collect(rs[..i]) == Ok(cubes) && rs[i] == Ok(cube) && next == cubes + [cube]
    requires red == Tally(cubes, "red") + (if cube.color == "red" then cube.count else 0)
    requires green == Tally(cubes, "green") + (if cube.color == "green" then cube.count else 0)
    requires blue == Tally(cubes, "blue") + (if cube.color == "blue" then cube.count else 0)
    ensures Collect(rs[..i + 1]) == Ok(next)
    ensures red == Tally(next, "red") && green == Tally(next, "green") && blue == Tally(next, "blue")
  {
    CollectStep(rs, i, cubes);
    TallySnoc(cubes, cube);
  }

  /** `Round::from_str`: the loop over the comma-separated entries adding
      each count to `red`, `green` or `blue`. */
  method ParseRound(s: string) returns (r: Result<Round>)
    ensures r == RoundSpec(s)
  {
    var entries := SplitOn(s, ",");
    ghost var rs := CubeResults(entries);
    var red, green, blue := 0, 0, 0;
    ghost var cubes: seq<Cube> := [];
    ColorsDistinct();
    var i := 0;
    assert rs[..0] == [];
    while i < |entries|
      invariant 0 <= i <= |entries|
      invariant Collect(rs[..i]) == Ok(cubes)
      invariant red == Tally(cubes, "red") && green == Tally(cubes, "green") && blue == Tally(cubes, "blue")
    {
      var entry := ParseCube(entries[i]);
      assert rs[i] == entry;
      if entry.Err? {
        CollectStopsAt(rs, i);
        return Err(entry.msg);
      }
      var cube := entry.value;
      assert IsColor(cube.color);
      if cube.color == "red" {
        red := red + cube.count;
      } else if cube.color == "green" {
        green := green + cube.count;
      } else {
        blue := blue + cube.count;
      }
      ghost var next := cubes + [cube];
      CubeStep(rs, i, cubes, cube, next, red, green, blue);
      cubes := next;
      i := i + 1;
    }
    assert rs[..i] == rs;
    r := Ok(Round(red, green, blue));
  }

  // ---------------------------------------------------------------------
  // Game::from_str
  // ---------------------------------------------------------------------

  /** The rounds' texts: the `;`-separated pieces, trimmed. */
  function RoundTexts(s: string): (r: seq<string>)
    ensures |r| == |SplitOn(s, ";")|
  {
    var pieces := SplitOn(s, ";");
    seq(|pieces|, i requires 0 <= i < |pieces| => Trim(pieces[i]))
  }

  function RoundResults(texts: seq<string>): (r: seq<Result<Round>>)
    ensures |r| == |texts|
  {
    seq(|texts|, i requires 0 <= i < |texts| => RoundSpec(texts[i]))
  }

  /** `Game::from_str`: the id after `"Game "` before the first `": "`, and
      the rounds after it. Text after a second `": "` is ignored. */
  function ParseGame(s: string): Result<Game>
  {
    var parts := SplitOn(s, ": ");
    if |parts| < 2 then Err("no rounds part")
    else
      var idText := TrimStartMatches(parts[0], "Game ");
      match ParseNat(idText)
      case None => Err(ParseNatMessage(idText))
      case Some(id) =>
        match Collect(RoundResults(RoundTexts(parts[1])))
        case Err(e) => Err(e)
        case Ok(rounds) => Ok(Game(id, rounds))
  }

  /** A line without `": "` has no rounds part. Otherwise the line parses
      exactly when the id after `"Game "` does and every `;`-separated
      round does; a bad id gives the integer parser's error, a bad round
      the error of the first that fails, and a parsed game has that id and
      one round per piece, in order. */
  lemma ParseGameMeaning(s: string)
    ensures !Contains(s, ": ") ==> ParseGame(s) == Err("no rounds part")
    ensures Contains(s, ": ") ==>
      && |SplitOn(s, ": ")| >= 2
      && var parts := SplitOn(s, ": ");
      var idText := TrimStartMatches(parts[0], "Game ");
      var rs := RoundResults(RoundTexts(parts[1]));
      && (ParseGame(s).Ok? <==> ParseNat(idText).Some? && forall i :: 0 <= i < |rs| ==> rs[i].Ok?)
      && (ParseNat(idText).None? ==> ParseGame(s) == Err(ParseNatMessage(idText)))
      && (ParseNat(idText).Some? && ParseGame(s).Err? ==> exists i :: FirstError(rs, i) && rs[i] == Err(ParseGame(s).msg))
      && (ParseGame(s).Ok? ==> ParseGame(s) == Ok(Game(ParseNat(idText).value, OkValues(rs))))
  {
    SplitOnSingle(s, ": ");
    var parts := SplitOn(s, ": ");
    if |parts| >= 2 {
      CollectMeaning(RoundResults(RoundTexts(parts[1])));
    }
  }

  // ---------------------------------------------------------------------
  // Game::is_possible and Game::min_power
  // ---------------------------------------------------------------------

  /** The round asks for more cubes of some colour than the bag holds. */
  predicate TooMany(r: Round) { r.red > 12 || r.green > 13 || r.blue > 14 }

  /** `find` over the rounds: the index of the first round asking for too
      many cubes. */
  function FindTooMany(rounds: seq<Round>): (r: Option<nat>)
    ensures r.None? <==> forall i :: 0 <= i < |rounds| ==> !TooMany(rounds[i])
    ensures r.Some? ==>
      r.value < |rounds| && TooMany(rounds[r.value]) && forall j :: 0 <= j < r.value ==> !TooMany(rounds[j])
    decreases |rounds|
  {
    if rounds == [] then None
    else if TooMany(rounds[0]) then Some(0)
    else
      var rest := FindTooMany(rounds[1..]);
      assert forall i :: 1 <= i < |rounds| ==> rounds[i] == rounds[1..][i - 1];
      match rest
      case None => None
      case Some(k) => Some(k + 1)
  }

  /** `is_possible`: a game is possible exactly when every round has at most
      12 red, 13 green and 14 blue cubes. */
  function IsPossible(g: Game): (b: bool)
    ensures b <==> forall i :: 0 <= i < |g.rounds| ==>
      g.rounds[i].red <= 12 && g.rounds[i].green <= 13 && g.rounds[i].blue <= 14
  {
    FindTooMany(g.rounds).None?
  }

  function Max(a: nat, b: nat): nat { if a >= b then a else b }

  /** A bag with at least as many cubes of each colour as the round. */
  predicate Covers(bag: Round, r: Round)
  {
    r.red <= bag.red && r.green <= bag.green && r.blue <= bag.blue
  }

  /** The colour-wise maxima over the rounds, folded left to right from
      zero, as `min_power`'s loop does. */
  function Maxima(rounds: seq<Round>): Round
    decreases |rounds|
  {
    if rounds == [] then Round(0, 0, 0)
    else
      var m := Maxima(rounds[..|rounds| - 1]);
      var r := rounds[|rounds| - 1];
      Round(Max(m.red, r.red), Max(m.green, r.green), Max(m.blue, r.blue))
  }

  /** The maxima cover every round... */
  lemma {:induction false} MaximaCoverRounds(rounds: seq<Round>)
    ensures forall i :: 0 <= i < |rounds| ==> Covers(Maxima(rounds), rounds[i])
    decreases |rounds|
  {
    if rounds != [] {
      var init := rounds[..|rounds| - 1];
      MaximaCoverRounds(init);
      assert forall i :: 0 <= i < |init| ==> init[i] == rounds[i];
    }
  }

  /** ...and every bag covering every round covers the maxima: they are the
      fewest cubes that make the game possible. With no rounds they are
      all 0. */
  lemma {:induction false} MaximaLeast(rounds: seq<Round>, bag: Round)
    requires forall i :: 0 <= i < |rounds| ==> Covers(bag, rounds[i])
    ensures Covers(bag, Maxima(rounds))
    decreases |rounds|
  {
    if rounds != [] {
      var init := rounds[..|rounds| - 1];
      assert forall i :: 0 <= i < |init| ==> init[i] == rounds[i];
      MaximaLeast(init, bag);
    }
  }

  /** A game is possible exactly when its fewest cubes fit in the bag of
      12 red, 13 green and 14 blue. */
  lemma PossibleIffMaximaFit(g: Game)
    ensures IsPossible(g) <==> Covers(Round(12, 13, 14), Maxima(g.rounds))
  {
    MaximaCoverRounds(g.rounds);
    if IsPossible(g) {
      MaximaLeast(g.rounds, Round(12, 13, 14));
    }
  }

  function Power(r: Round): nat { r.red * r.green * r.blue }

  /** `min_power`: the loop keeping the largest count of each colour seen so
      far, then their product. */
  method MinPower(g: Game) returns (p: nat)
    ensures p == Power(Maxima(g.rounds))
    ensures g.rounds == [] ==> p == 0
  {
    var minRed, minGreen, minBlue := 0, 0, 0;
    var i := 0;
    while i < |g.rounds|
      invariant 0 <= i <= |g.rounds|
      invariant Maxima(g.rounds[..i]) == Round(minRed, minGreen, minBlue)
    {
      var round := g.rounds[i];
      assert g.rounds[..i + 1][..i] == g.rounds[..i];
      minRed := Max(minRed, round.red);
      minGreen := Max(minGreen, round.green);
      minBlue := Max(minBlue, round.blue);
      i := i + 1;
    }
    assert g.rounds[..i] == g.rounds;
    p := minRed * minGreen * minBlue;
  }

  // ---------------------------------------------------------------------
  // Parts one and two: `try_fold` sums over the lines
  // ---------------------------------------------------------------------

  function Games(lines: Lines): (r: seq<Result<Game>>)
    ensures |r| == |lines|
  {
    seq(|lines|, i requires 0 <= i < |lines| => ParseGame(lines[i]))
  }

  /** A game's part-one contribution: its id if it is possible. */
  function IdIfPossible(g: Game): nat { if IsPossible(g) then g.id else 0 }

  /** A game's part-two contribution: the power of its fewest cubes. */
  function GamePower(g: Game): nat { Power(Maxima(g.rounds)) }

  /** Part one: `try_fold` adding each possible game's id, stopping at the
      first line that does not parse. */
  function PartOne(lines: Lines): Result<nat>
  {
    SumValues(MapOk(Games(lines), IdIfPossible))
  }

  function PartTwo(lines: Lines): Result<nat>
  {
    SumValues(MapOk(Games(lines), GamePower))
  }

  /** Part one fails exactly when some line does not parse, with the error
      of the first such line; otherwise it adds the ids of exactly the
      possible games. */
  lemma PartOneMeaning(lines: Lines)
    ensures var gs := Games(lines);
      && (PartOne(lines).Ok? <==> forall i :: 0 <= i < |gs| ==> gs[i].Ok?)
      && (PartOne(lines).Err? ==> exists i :: FirstError(gs, i) && gs[i].msg == PartOne(lines).msg)
      && (PartOne(lines).Ok? ==>
        (forall i :: 0 <= i < |gs| ==> gs[i].Ok?) &&
        PartOne(lines).value == Sum(Mapped(OkValues(gs), IdIfPossible)))
  {
    SumMappedMeaning(Games(lines), IdIfPossible);
  }

  /** Part two fails exactly when some line does not parse, with the error
      of the first such line; otherwise it adds every game's power. */
  lemma PartTwoMeaning(lines: Lines)
    ensures var gs := Games(lines);
      && (PartTwo(lines).Ok? <==> forall i :: 0 <= i < |gs| ==> gs[i].Ok?)
      && (PartTwo(lines).Err? ==> exists i :: FirstError(gs, i) && gs[i].msg == PartTwo(lines).msg)
      && (PartTwo(lines).Ok? ==>
        (forall i :: 0 <= i < |gs| ==> gs[i].Ok?) &&
        PartTwo(lines).value == Sum(Mapped(OkValues(gs), GamePower)))
  {
    SumMappedMeaning(Games(lines), GamePower);
  }
}
