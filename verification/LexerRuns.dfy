/** Whole runs of a generated lexer, and two rules whose `$` surprises. */
module LexerRuns {
  import opened Basics
  import opened Regex
  import opened Buffer
  import opened Generator
  import opened Munch
  import opened LineEnds
  import opened Lexer
  import Rules

  function Texts(tokens: seq<Lexeme>): seq<nat> {
    if tokens == [] then []
    else Texts(tokens[..|tokens| - 1]) + (if tokens[|tokens| - 1].Token? then tokens[|tokens| - 1].text else [])
  }

  /** Lexeme number `j` of a run is read at a line start if the run began at one, or if the text
      before it ends with a line end. */
  ghost predicate BolBefore(nchars: nat, tokens: seq<Lexeme>, bol: bool, j: nat)
    requires j <= |tokens|
  {
    if j == 0 then bol else tokens[j - 1].Token? && LineStartAfter(nchars, tokens[j - 1].text)
  }

  /** Lexeme number `j` of a run over `rest` is the one the specification asks for at its place. */
  ghost predicate RightAt(spec: Spec, states: seq<nat>, bol: bool, rest: seq<nat>, tokens: seq<Lexeme>, j: nat)
    requires j < |tokens| <= |states|
  {
    var at := |Texts(tokens[..j])|;
    at <= |rest| && LexemeAt(spec, states[j], BolBefore(spec.nchars, tokens, bol, j), rest[at..], tokens[j])
  }

  /** A token without text away from a line start: nothing has changed behind it. */
  ghost predicate Stalls(nchars: nat, tokens: seq<Lexeme>, bol: bool, j: nat)
    requires j < |tokens|
  {
    tokens[j].Token? && tokens[j].text == [] && !BolBefore(nchars, tokens, bol, j)
  }

  predicate AllTokens(tokens: seq<Lexeme>) {
    forall j :: 0 <= j < |tokens| ==> tokens[j].Token?
  }

  /** A run over `rest`: every lexeme is the one the specification asks for at its place; the texts are
      the input, in order, with nothing lost or repeated; the run ends by itself, at the end of the input
      or where nothing matches, unless it stalls. */
  ghost predicate GoodRun(spec: Spec, states: seq<nat>, bol: bool, rest: seq<nat>, tokens: seq<Lexeme>) {
    && |tokens| <= |states| && Texts(tokens) <= rest
    && (forall j :: 0 <= j < |tokens| ==> RightAt(spec, states, bol, rest, tokens, j))
    && (tokens != [] ==> AllTokens(tokens[..|tokens| - 1]))
    && (tokens != [] && tokens[|tokens| - 1].EndOfFile? ==> Texts(tokens) == rest)
    && (AllTokens(tokens) ==> |tokens| == |states|)
    && (AllTokens(tokens) && |states| > 2 * |rest| + 1 ==>
          exists j :: 0 <= j < |tokens| && Stalls(spec.nchars, tokens, bol, j))
  }

  /** A run of the lexer, with the lexical state the actions choose before each token. */
  method Tokenize(spec: Spec, t: Tables, sc: Scanner, states: seq<nat>) returns (tokens: seq<Lexeme>)
    requires Implements(spec, t) && StopsAfterEof(spec, t) && forall j :: 0 <= j < |states| ==> states[j] < spec.nstates
    requires sc.Valid() && sc.eof == Eof(spec.nchars) && Over(sc.input, spec.nchars)
    modifies sc, sc.reader, sc.buffer
    ensures sc.Valid() && GoodRun(spec, states, old(sc.atBol), sc.input[old(sc.Position())..], tokens)
  {
    tokens := [];
    ghost var pos, bol, at: nat := sc.Position(), sc.atBol, 0;
    ghost var rest := sc.input[pos..];
    var more := true;
    while more && |tokens| < |states|
      invariant sc.Valid() && (sc.buffer == old(sc.buffer) || fresh(sc.buffer))
      invariant more ==> AllTokens(tokens) && sc.Position() == pos + at
      invariant more ==> Reached(spec, states, bol, rest, tokens, sc.atBol, at)
      invariant !more ==> GoodRun(spec, states, bol, rest, tokens)
      decreases |states| - |tokens|, more
    {
      tokens, more, at := ReadOn(spec, t, sc, states, tokens, pos, bol, rest, at);
    }
    if more {
      NotEnded(spec, states, bol, rest, tokens, sc.atBol, at);
    }
  }

  /** One more lexeme of a run. */
  method ReadOn(spec: Spec, t: Tables, sc: Scanner, states: seq<nat>, tokens: seq<Lexeme>,
                ghost pos: nat, ghost bol: bool, ghost rest: seq<nat>, ghost at: nat)
      returns (tokens': seq<Lexeme>, more: bool, ghost at': nat)
    requires Implements(spec, t) && StopsAfterEof(spec, t) && |tokens| < |states| && states[|tokens|] < spec.nstates
    requires sc.Valid() && sc.eof == Eof(spec.nchars) && Over(sc.input, spec.nchars)
    requires pos <= |sc.input| && rest == sc.input[pos..] && sc.Position() == pos + at
    requires AllTokens(tokens) && Reached(spec, states, bol, rest, tokens, sc.atBol, at)
    modifies sc, sc.reader, sc.buffer
    ensures sc.Valid() && (sc.buffer == old(sc.buffer) || fresh(sc.buffer)) && |tokens'| == |tokens| + 1
    ensures more ==> AllTokens(tokens') && sc.Position() == pos + at'
    ensures more ==> Reached(spec, states, bol, rest, tokens', sc.atBol, at')
    ensures !more ==> GoodRun(spec, states, bol, rest, tokens')
  {
    ghost var wasBol := sc.atBol;
    var tok := NextLexeme(spec, t, sc, states[|tokens|], pos, rest, at);
    at' := if tok.Token? then at + |tok.text| else at;
    OneMore(spec, states, bol, rest, tokens, wasBol, at, tok, at');
    tokens', more := tokens + [tok], tok.Token?;
  }

  lemma {:induction false} LexemeInside(spec: Spec, i: nat, bol: bool, input: seq<nat>, pos: nat, at: nat, r: Lexeme,
                                        end: nat)
    requires pos + at <= |input| && LexemeAt(spec, i, bol, input[pos + at..], r)
    requires r.Token? ==> pos + at <= end <= |input| && r.text == input[pos + at..end]
    ensures var rest := input[pos..];
            && LexemeAt(spec, i, bol, rest[at..], r)
            && (r.Token? ==> at + |r.text| <= |rest| && r.text == rest[at..at + |r.text|] && end == pos + at + |r.text|)
  {
    assert input[pos..][at..] == input[pos + at..];
  }

  /** What a run over `rest` needs to know of the lexeme at `at`. */
  method NextLexeme(spec: Spec, t: Tables, sc: Scanner, i: nat, ghost pos: nat, ghost rest: seq<nat>, ghost at: nat)
      returns (r: Lexeme)
    requires Implements(spec, t) && StopsAfterEof(spec, t) && i < spec.nstates
    requires sc.Valid() && sc.eof == Eof(spec.nchars) && Over(sc.input, spec.nchars)
    requires pos <= |sc.input| && rest == sc.input[pos..] && sc.Position() == pos + at
    modifies sc, sc.reader, sc.buffer
    ensures sc.Valid() && (sc.buffer == old(sc.buffer) || fresh(sc.buffer))
    ensures at <= |rest| && LexemeAt(spec, i, old(sc.atBol), rest[at..], r)
    ensures r.Token? ==>
              && at + |r.text| <= |rest| && r.text == rest[at..at + |r.text|]
              && sc.Position() == pos + at + |r.text| && sc.atBol == LineStartAfter(spec.nchars, r.text)
  {
    ghost var m, bol := 0, sc.atBol;
    r, m := NextToken(spec, t, sc, i);
    LexemeInside(spec, i, bol, sc.input, pos, at, r, sc.Position());
  }

  lemma {:induction false} NotEnded(spec: Spec, states: seq<nat>, bol: bool, rest: seq<nat>, tokens: seq<Lexeme>,
                                    atBol: bool, at: nat)
    requires Reached(spec, states, bol, rest, tokens, atBol, at) && AllTokens(tokens) && |tokens| == |states|
    ensures GoodRun(spec, states, bol, rest, tokens)
  {
    if |states| > 2 * |rest| + 1 && forall j :: 0 <= j < |tokens| ==> !Stalls(spec.nchars, tokens, bol, j) {
      Progress(spec.nchars, tokens, bol);
    }
  }

  /** So far: what was read, and where that leads. */
  ghost predicate Reached(spec: Spec, states: seq<nat>, bol: bool, rest: seq<nat>, tokens: seq<Lexeme>, atBol: bool,
                          at: nat) {
    && |tokens| <= |states| && at <= |rest| && Texts(tokens) == rest[..at] &&
         atBol == BolBefore(spec.nchars, tokens, bol, |tokens|)
    && forall j :: 0 <= j < |tokens| ==> RightAt(spec, states, bol, rest, tokens, j)
  }

  lemma {:induction false} OneMore(spec: Spec, states: seq<nat>, bol: bool, rest: seq<nat>, tokens: seq<Lexeme>,
                                   atBol: bool, at: nat,
                                   tok: Lexeme, at': nat)
    requires Reached(spec, states, bol, rest, tokens, atBol, at) && |tokens| < |states|
    requires LexemeAt(spec, states[|tokens|], atBol, rest[at..], tok)
    requires if tok.Token? then at <= at' <= |rest| && tok.text == rest[at..at'] else at' == at
    ensures var tokens' := tokens + [tok];
            && Reached(spec, states, bol, rest, tokens', BolBefore(spec.nchars, tokens', bol, |tokens'|), at')
            && (AllTokens(tokens) && !tok.Token? ==> GoodRun(spec, states, bol, rest, tokens'))
  {
    var tokens' := tokens + [tok];
    assert tokens'[..|tokens|] == tokens;
    assert rest[..at'] == rest[..at] + rest[at..at'];
    forall j | 0 <= j < |tokens'| ensures RightAt(spec, states, bol, rest, tokens', j) {
      if j < |tokens| {
        assert RightAt(spec, states, bol, rest, tokens, j);
        assert tokens'[..j] == tokens[..j];
      }
    }
    if tok.EndOfFile? {
      assert rest[at..] == [];
      assert rest[..at] == rest;
    }
  }

  /** Without stalls every token reads a character or leaves a line start. */
  lemma {:induction false} Progress(nchars: nat, tokens: seq<Lexeme>, bol: bool)
    requires AllTokens(tokens) && forall j :: 0 <= j < |tokens| ==> !Stalls(nchars, tokens, bol, j)
    ensures |tokens| <= 2 * |Texts(tokens)| + if BolBefore(nchars, tokens, bol, |tokens|) then 0 else 1
  {
    if tokens != [] {
      var n := |tokens| - 1;
      var front := tokens[..n];
      forall j | 0 <= j < n ensures !Stalls(nchars, front, bol, j) {
        assert !Stalls(nchars, tokens, bol, j);
      }
      Progress(nchars, front, bol);
      assert !Stalls(nchars, tokens, bol, n);
      assert BolBefore(nchars, front, bol, n) == BolBefore(nchars, tokens, bol, n);
    }
  }

  /** A run that stalls and stays in its lexical state stalls forever. */
  lemma {:induction false} StallsForever(spec: Spec, i: nat, rest: seq<nat>, r: Lexeme, r': Lexeme)
    requires LexemeAt(spec, i, false, rest, r) && r.Token? && r.text == []
    requires LexemeAt(spec, i, LineStartAfter(spec.nchars, r.text), rest[|r.text|..], r')
    ensures r' == r
  {
    assert rest[0..] == rest;
    LexemeUnique(spec, i, false, rest, r, r');
  }

  // Two rules.

  const LETTER: nat := 97

  /** The specification with one rule. */
  function OneRule(expr: Expr, eol: bool): Spec {
    Spec(128, 1, [Rule(false, expr, eol, {0})])
  }

  /** The rule `a\r$`. */
  function AReturn(): Spec {
    OneRule(Expr([Cat([Factor(Literal(LETTER), Once), Factor(Literal(RETURN), Once)])]), true)
  }

  lemma {:induction false} AReturnOk()
    ensures SpecOk(AReturn())
  {
    var c := Cat([Factor(Literal(LETTER), Once), Factor(Literal(RETURN), Once)]);
    assert TermOk(128, c.factors[0].term) && TermOk(128, c.factors[1].term);
    assert CatOk(128, c);
  }

  lemma {:induction false} AReturnWords(w: seq<nat>)
    ensures InExpr(128, AReturn().rules[0].expr, w) <==> w == [LETTER, RETURN]
  {
    var c := Cat([Factor(Literal(LETTER), Once), Factor(Literal(RETURN), Once)]);
    forall v: seq<nat> ensures InCat(128, c, 1, v) <==> v == [LETTER] {
      if v == [LETTER] {
        assert v[..0] == [] && v[0..] == v;
        assert InCat(128, c, 0, v[..0]) && InFactor(128, c.factors[0], v[0..]);
      }
      if InCat(128, c, 1, v) {
        var k :| 0 <= k <= |v| && InCat(128, c, 0, v[..k]) && InFactor(128, c.factors[0], v[k..]);
        assert v[k..] == v;
      }
    }
    if w == [LETTER, RETURN] {
      assert w[..1] == [LETTER] && w[1..] == [RETURN];
      assert InCat(128, c, 1, w[..1]) && InFactor(128, c.factors[1], w[1..]);
      assert InCat(128, c, 2, w);
      assert InCat(128, AReturn().rules[0].expr.cats[0], 2, w);
    }
    if InExpr(128, AReturn().rules[0].expr, w) {
      assert InCat(128, c, 2, w);
      var k :| 0 <= k <= |w| && InCat(128, c, 1, w[..k]) && InFactor(128, c.factors[1], w[k..]);
      assert w == w[..k] + w[k..];
    }
  }

  /** A word that the rule `a\r$` matches starts with these two characters. */
  lemma {:induction false} AReturnMatches(w: seq<nat>)
    ensures Matches(AReturn(), 0, w) <==> |w| >= 2 && w[..2] == [LETTER, RETURN] && LineEnd(128, w[2..])
  {
    if Matches(AReturn(), 0, w) {
      var k :| 0 <= k <= |w| && InExpr(128, AReturn().rules[0].expr, w[..k]) && LineEnd(128, w[k..]);
      AReturnWords(w[..k]);
    } else if |w| >= 2 {
      AReturnWords(w[..2]);
    }
  }

  /** Before CR LF, `a\r$` matches all three characters; its text is `a`, which is no word of `a\r`. */
  lemma {:induction false} ReturnLost()
    ensures var rest := [LETTER, RETURN, NEWLINE];
            && EndSplit(128, AReturn().rules[0], Prefix(128, false, rest, 3), [LETTER, RETURN], [NEWLINE])
            && LexemeAt(AReturn(), 0, false, rest, Token(0, [LETTER]))
    ensures !InExpr(128, AReturn().rules[0].expr, [LETTER])
  {
    var spec, rest := AReturn(), [LETTER, RETURN, NEWLINE];
    AReturnWords([LETTER]);
    AReturnWords([LETTER, RETURN]);
    assert Prefix(128, false, rest, 3) == rest;
    assert rest[..2] == [LETTER, RETURN] && rest[2..] == [NEWLINE];
    AReturnMatches(rest);
    forall n: nat, j | n > 3 && 0 <= j <= |spec.rules| ensures !Matches(spec, j, Prefix(128, false, rest, n)) {
      var w := Prefix(128, false, rest, n);
      AReturnMatches(w);
      assert w[2..][0] == NEWLINE;
    }
    assert LongestRule(spec, 0, false, rest, 3, 0);
    assert rest[..3] == rest && TokenText(spec, 0, false, rest, 3) == [LETTER];
  }

  /** At a line start the silent rule comes first. */
  lemma {:induction false} LineStart()
    ensures LexemeAt(AReturn(), 0, true, [LETTER, RETURN, NEWLINE], Token(1, []))
  {
    var spec, rest := AReturn(), [LETTER, RETURN, NEWLINE];
    assert Prefix(128, true, rest, 1) == [Bol(128)];
    forall n: nat ensures !Matches(spec, 0, Prefix(128, true, rest, n)) {
      var w := Prefix(128, true, rest, n);
      AReturnMatches(w);
      assert n > 0 ==> w[0] == SymbolAt(128, true, rest, 0);
    }
    assert LongestRule(spec, 0, true, rest, 1, 1);
    assert rest[..0] == [] && TokenText(spec, 1, true, rest, 1) == [];
  }

  /** A lexer generated from `spec` and run on `input`, where the first token has no text. */
  method ReadTwo(spec: Spec, input: seq<nat>, ghost first: Lexeme, ghost second: Lexeme) returns (tokens: seq<Lexeme>)
    requires SpecOk(spec) && Over(input, spec.nchars)
    requires LexemeAt(spec, 0, true, input, first) && first.Token? && first.text == []
    requires LexemeAt(spec, 0, false, input, second)
    ensures tokens == [first, second]
  {
    var t, nfa := Generate(spec);
    var reader := new Reader(input);
    var sc := new Scanner(input, reader, Eof(spec.nchars), 512);
    var a, m := NextToken(spec, t, sc, 0);
    assert input[0..] == input;
    LexemeUnique(spec, 0, true, input, a, first);
    var b, m' := NextToken(spec, t, sc, 0);
    LexemeUnique(spec, 0, false, input, b, second);
    tokens := [a, b];
  }

  /** A lexer generated from `a\r$` and run on a, CR, LF. */
  method ReadAReturn() returns (tokens: seq<Lexeme>)
    ensures tokens == [Token(1, []), Token(0, [LETTER])]
  {
    AReturnOk();
    LineStart();
    ReturnLost();
    tokens := ReadTwo(AReturn(), [LETTER, RETURN, NEWLINE], Token(1, []), Token(0, [LETTER]));
  }

  /** The rule `a*$`. */
  function AStar(): Spec {
    OneRule(Expr([Cat([Factor(Literal(LETTER), Star)])]), true)
  }

  lemma {:induction false} AStarWords(w: seq<nat>)
    ensures InExpr(128, AStar().rules[0].expr, [])
    ensures InExpr(128, AStar().rules[0].expr, w) && w != [] ==> w[0] == LETTER
  {
    var c := AStar().rules[0].expr.cats[0];
    var e: seq<nat> := [];
    assert InCat(128, c, 0, e[..0]) && InFactor(128, c.factors[0], e[0..]);
    assert InCat(128, c, 1, e);
    if InExpr(128, AStar().rules[0].expr, w) && w != [] {
      assert InCat(128, c, 1, w);
      var k :| 0 <= k <= |w| && InCat(128, c, 0, w[..k]) && InFactor(128, c.factors[0], w[k..]);
      assert w[k..] == w;
      var j :| 0 < j <= |w| && InTerm(128, Literal(LETTER), w[..j]) && InStar(128, Literal(LETTER), w[j..]);
      assert w[0] == w[..j][0];
    }
  }

  /** In front of a LF, away from a line start, `a*$` matches without text: the lexer stalls. */
  lemma {:induction false} EmptyLineStalls()
    ensures LexemeAt(AStar(), 0, false, [NEWLINE], Token(0, []))
  {
    var spec, rest := AStar(), [NEWLINE];
    assert Prefix(128, false, rest, 1) == rest && rest[..0] == [] && rest[0..] == rest;
    AStarWords([]);
    assert Matches(spec, 0, rest);
    forall n: nat, j | n > 1 && 0 <= j <= |spec.rules| ensures !Matches(spec, j, Prefix(128, false, rest, n)) {
      var w := Prefix(128, false, rest, n);
      assert w[0] == NEWLINE;
      if j == 0 && Matches(spec, 0, w) {
        var k :| 0 <= k <= |w| && InExpr(128, spec.rules[0].expr, w[..k]) && LineEnd(128, w[k..]);
        AStarWords(w[..k]);
      }
    }
    assert LongestRule(spec, 0, false, rest, 1, 0);
    assert rest[..1] == rest && TokenText(spec, 0, false, rest, 1) == [];
  }
}
