/** The generated lexer against its specification: which rule acts on which text. */
module Lexer {
  import opened Basics
  import opened Nfa
  import opened Regex
  import opened Dfa
  import opened Buffer
  import opened Generator
  import opened Munch
  import opened LineEnds
  import Rules

  /** Of all prefixes of the pseudo-input, the longest that an active rule matches has `m`
      symbols, and `k` is the first active rule that matches it. */
  ghost predicate LongestRule(spec: Spec, i: nat, bol: bool, rest: seq<nat>, m: nat, k: nat) {
    && k <= |spec.rules| && FirstMatch(spec, i, Prefix(spec.nchars, bol, rest, m), Some(k), Rules.AnchorOf(spec, k))
    && forall n, j :: n > m && 0 <= j <= |spec.rules| && ActiveIn(spec, j, i) ==>
         !Matches(spec, j, Prefix(spec.nchars, bol, rest, n))
  }

  /** No active rule matches any prefix. */
  ghost predicate NoRule(spec: Spec, i: nat, bol: bool, rest: seq<nat>) {
    forall n: nat, j :: 0 <= j <= |spec.rules| && ActiveIn(spec, j, i) ==>
        !Matches(spec, j, Prefix(spec.nchars, bol, rest, n))
  }

  ghost predicate ScanFor(spec: Spec, t: Tables, i: nat, scan: Scan) {
    && Implements(spec, t) && StopsAfterEof(spec, t) && i < spec.nstates
    && scan.nchars == spec.nchars && scan.t == t && scan.start == t.starts[i] && Over(scan.rest, spec.nchars)
  }

  lemma {:induction false} ScanOk(spec: Spec, t: Tables, i: nat, scan: Scan)
    requires ScanFor(spec, t, i, scan)
    ensures scan.Ok() && scan.EofStops()
  {
    var n := scan.Bound();
    var w := Prefix(spec.nchars, scan.bol, scan.rest, n);
    var eof := Eof(spec.nchars);
    scan.PrefixOver(n);
    assert w == w[..n - 2] + [eof] + [eof];
  }

  /** A prefix is accepted exactly when an active rule matches it. */
  lemma {:induction false} AcceptedMeans(spec: Spec, t: Tables, i: nat, scan: Scan, n: nat)
    requires ScanFor(spec, t, i, scan) && scan.Ok()
    ensures var w := Prefix(spec.nchars, scan.bol, scan.rest, n);
            if scan.Accepted(n) then FirstMatch(spec, i, w, t.accepts[scan.State(n)], t.anchors[scan.State(n)])
            else forall j :: 0 <= j <= |spec.rules| && ActiveIn(spec, j, i) ==> !Matches(spec, j, w)
  {
    var w := Prefix(spec.nchars, scan.bol, scan.rest, n);
    scan.PrefixOver(n);
    assert Decides(spec, t, i, w);
    if scan.State(n) == F {
      assert w + [] == w;
      assert Word(spec.nchars, w + []);
    }
  }

  lemma {:induction false} LongestMeans(spec: Spec, t: Tables, i: nat, scan: Scan, m: nat)
    requires ScanFor(spec, t, i, scan) && scan.Ok() && scan.Longest(m)
    ensures var k := t.accepts[scan.State(m)].value;
            && LongestRule(spec, i, scan.bol, scan.rest, m, k)
            && t.anchors[scan.State(m)] == Rules.AnchorOf(spec, k)
  {
    AcceptedMeans(spec, t, i, scan, m);
    forall n: nat, j | n > m && 0 <= j <= |spec.rules| && ActiveIn(spec, j, i)
      ensures !Matches(spec, j, Prefix(spec.nchars, scan.bol, scan.rest, n))
    {
      AcceptedMeans(spec, t, i, scan, n);
    }
  }

  lemma {:induction false} NothingMeans(spec: Spec, t: Tables, i: nat, scan: Scan)
    requires ScanFor(spec, t, i, scan) && scan.Ok() && forall n: nat :: !scan.Accepted(n)
    ensures NoRule(spec, i, scan.bol, scan.rest)
  {
    forall n: nat, j | 0 <= j <= |spec.rules| && ActiveIn(spec, j, i)
      ensures !Matches(spec, j, Prefix(spec.nchars, scan.bol, scan.rest, n))
    {
      AcceptedMeans(spec, t, i, scan, n);
    }
  }

  datatype Lexeme = EndOfFile | Unmatched | Token(rule: nat, text: seq<nat>)

  /** The lexeme that lexical state `i` asks for, at a line start or not, in front of `rest`. */
  ghost predicate LexemeAt(spec: Spec, i: nat, bol: bool, rest: seq<nat>, r: Lexeme) {
    if !bol && rest == [] then r == Lexeme.EndOfFile
    else
      match r
      case EndOfFile => false
      case Unmatched => NoRule(spec, i, bol, rest)
      case Token(k, text) =>
        exists m: nat :: LongestRule(spec, i, bol, rest, m, k) && text == TokenText(spec, k, bol, rest, m)
  }

  lemma {:induction false} LongestUnique(spec: Spec, i: nat, bol: bool, rest: seq<nat>, m: nat, k: nat, m': nat,
                                         k': nat)
    requires LongestRule(spec, i, bol, rest, m, k) && LongestRule(spec, i, bol, rest, m', k')
    ensures m == m' && k == k'
  {
    assert Matches(spec, k, Prefix(spec.nchars, bol, rest, m)) && ActiveIn(spec, k, i);
    assert Matches(spec, k', Prefix(spec.nchars, bol, rest, m')) && ActiveIn(spec, k', i);
  }

  /** The specification and the input determine the lexeme. */
  lemma {:induction false} LexemeUnique(spec: Spec, i: nat, bol: bool, rest: seq<nat>, r: Lexeme, r': Lexeme)
    requires LexemeAt(spec, i, bol, rest, r) && LexemeAt(spec, i, bol, rest, r')
    ensures r == r'
  {
    if bol || rest != [] {
      if r.Token? && r'.Token? {
        var m: nat :| LongestRule(spec, i, bol, rest, m, r.rule) && r.text == TokenText(spec, r.rule, bol, rest, m);
        var m': nat :| LongestRule(spec, i, bol, rest, m', r'.rule) &&
            r'.text == TokenText(spec, r'.rule, bol, rest, m');
        LongestUnique(spec, i, bol, rest, m, r.rule, m', r'.rule);
      } else {
        TokenOrNot(spec, i, bol, rest, r);
        TokenOrNot(spec, i, bol, rest, r');
      }
    }
  }

  lemma {:induction false} TokenOrNot(spec: Spec, i: nat, bol: bool, rest: seq<nat>, r: Lexeme)
    requires LexemeAt(spec, i, bol, rest, r) && (bol || rest != [])
    ensures r.Token? <==> !NoRule(spec, i, bol, rest)
  {
    if r.Token? {
      var m: nat :| LongestRule(spec, i, bol, rest, m, r.rule) && r.text == TokenText(spec, r.rule, bol, rest, m);
      assert Matches(spec, r.rule, Prefix(spec.nchars, bol, rest, m)) && ActiveIn(spec, r.rule, i);
    }
  }

  /** One token of a lexer generated from `spec`, in lexical state `i`. */
  method NextToken(spec: Spec, t: Tables, sc: Scanner, i: nat) returns (r: Lexeme, ghost m: nat)
    requires Implements(spec, t) && StopsAfterEof(spec, t) && i < spec.nstates
    requires sc.Valid() && sc.eof == Eof(spec.nchars) && Over(sc.input, spec.nchars)
    modifies sc, sc.reader, sc.buffer
    ensures sc.Valid() && (sc.buffer == old(sc.buffer) || fresh(sc.buffer)) && sc.Start() == old(sc.Position())
    ensures LexemeAt(spec, i, old(sc.atBol), sc.input[old(sc.Position())..], r)
    ensures r.EndOfFile? ==> sc.Position() == old(sc.Position())
    ensures r.Token? ==>
              && LongestRule(spec, i, old(sc.atBol), sc.input[old(sc.Position())..], m, r.rule)
              && r.text == TokenText(spec, r.rule, old(sc.atBol), sc.input[old(sc.Position())..], m)
              && r.text == sc.input[sc.Start()..sc.Position()]
              && sc.atBol == LineStartAfter(spec.nchars, r.text)
    ensures r.Token? && r.rule < |spec.rules| && spec.rules[r.rule].eol ==>
              EndOfLine(spec.nchars, spec.rules[r.rule],
                        Prefix(spec.nchars, old(sc.atBol), sc.input[old(sc.Position())..], m), r.text)
  {
    ghost var scan := ScanOf(sc, t, t.starts[i], spec.nchars);
    ScanOk(spec, t, i, scan);
    var outcome;
    outcome, m := Round(sc, t, t.starts[i], spec.nchars);
    match outcome
    case EndOfFile =>
      r := Lexeme.EndOfFile;
    case Unmatched =>
      NothingMeans(spec, t, i, scan);
      r := Lexeme.Unmatched;
    case Action(s) =>
      var text := sc.YyText();
      TokenMeans(spec, t, i, scan, m, s, text);
      r := Token(t.accepts[s].value, text);
  }

  lemma {:induction false} TokenMeans(spec: Spec, t: Tables, i: nat, scan: Scan, m: nat, s: nat, text: seq<nat>)
    requires ScanFor(spec, t, i, scan) && scan.Ok() && (scan.bol || scan.rest != [])
    requires scan.Longest(m) && scan.State(m) == s && text == scan.Text(m)
    ensures var k := t.accepts[s].value;
            && LongestRule(spec, i, scan.bol, scan.rest, m, k) && text == TokenText(spec, k, scan.bol, scan.rest, m)
            && LexemeAt(spec, i, scan.bol, scan.rest, Token(k, text))
            && (EndsLine(text) <==> LineStartAfter(spec.nchars, text))
            && (k < |spec.rules| && spec.rules[k].eol ==>
                  EndOfLine(spec.nchars, spec.rules[k], Prefix(spec.nchars, scan.bol, scan.rest, m), text))
  {
    LongestMeans(spec, t, i, scan, m);
    var k := t.accepts[s].value;
    assert Over(text, spec.nchars);
    LineStartMeans(spec.nchars, text);
    if k < |spec.rules| && spec.rules[k].eol {
      EndTexts(spec, k, scan.bol, scan.rest, m);
    }
  }
}
