/** The regular expressions of a JLex rules section, as the recursive-descent
    parser sees them, and the words they match.  A word is a sequence of symbols:
    characters `0 <= c < nchars`, then the pseudo-characters BOL and EOF. */
module Regex {
  import opened Basics

  datatype Expr = Expr(cats: seq<Cat>)
  datatype Cat = Cat(factors: seq<Factor>)
  datatype Factor = Factor(term: Term, closure: Closure)
  datatype Closure = Once | Star | Plus | Optional
  datatype Term =
    | Group(expr: Expr)
    | Literal(c: nat)
    | Any
    | Bracket(negated: bool, chars: set<nat>)

  /** A rule `^expr$ { action }` with the lexical states it is active in. */
  datatype Rule = Rule(bol: bool, expr: Expr, eol: bool, states: set<nat>)

  /** A rules section: alphabet size, number of lexical states, rules in order. */
  datatype Spec = Spec(nchars: nat, nstates: nat, rules: seq<Rule>)

  const NEWLINE: nat := 10
  const RETURN: nat := 13
  const LINE_SEPARATOR: nat := 2028
  const PARAGRAPH_SEPARATOR: nat := 2029

  function Bol(nchars: nat): nat { nchars }
  function Eof(nchars: nat): nat { nchars + 1 }
  /** Number of symbols, pseudo-characters included. */
  function Symbols(nchars: nat): nat { nchars + 2 }

  ghost predicate Word(nchars: nat, w: seq<nat>) {
    Over(w, Symbols(nchars))
  }

  // The parser needs a first factor in every concatenation, and literal
  // characters inside the alphabet.

  ghost predicate ExprOk(nchars: nat, e: Expr) {
    && |e.cats| > 0
    && forall i :: 0 <= i < |e.cats| ==> CatOk(nchars, e.cats[i])
  }

  ghost predicate CatOk(nchars: nat, c: Cat) {
    && |c.factors| > 0
    && forall i :: 0 <= i < |c.factors| ==> TermOk(nchars, c.factors[i].term)
  }

  ghost predicate TermOk(nchars: nat, t: Term) {
    match t
    case Group(e) => ExprOk(nchars, e)
    case Literal(c) => c < nchars
    case Any => true
    case Bracket(negated, chars) => negated || forall c :: c in chars ==> c < nchars
  }

  ghost predicate SpecOk(s: Spec) {
    && s.nchars >= 128
    && s.nstates > 0
    && forall k :: 0 <= k < |s.rules| ==> ExprOk(s.nchars, s.rules[k].expr)
  }

  // The language of an expression.

  ghost predicate InExpr(nchars: nat, e: Expr, w: seq<nat>)
    decreases e, 0, 0
  {
    exists i :: 0 <= i < |e.cats| && InCat(nchars, e.cats[i], |e.cats[i].factors|, w)
  }

  /** `w` is matched by the first `j` factors of `c`. */
  ghost predicate InCat(nchars: nat, c: Cat, j: nat, w: seq<nat>)
    requires j <= |c.factors|
    decreases c, j, 0
  {
    if j == 0 then w == []
    else exists k :: 0 <= k <= |w| && InCat(nchars, c, j - 1, w[..k]) && InFactor(nchars, c.factors[j - 1], w[k..])
  }

  ghost predicate InFactor(nchars: nat, f: Factor, w: seq<nat>)
    decreases f, 0, 0
  {
    match f.closure
    case Once => InTerm(nchars, f.term, w)
    case Optional => w == [] || InTerm(nchars, f.term, w)
    case Star => InStar(nchars, f.term, w)
    case Plus => InPlus(nchars, f.term, w)
  }

  ghost predicate InPlus(nchars: nat, t: Term, w: seq<nat>)
    decreases t, 2, 0
  {
    exists k :: 0 <= k <= |w| && InTerm(nchars, t, w[..k]) && InStar(nchars, t, w[k..])
  }

  ghost predicate InStar(nchars: nat, t: Term, w: seq<nat>)
    decreases t, 1, |w|
  {
    || w == []
    || exists k :: 0 < k <= |w| && InTerm(nchars, t, w[..k]) && InStar(nchars, t, w[k..])
  }

  ghost predicate InTerm(nchars: nat, t: Term, w: seq<nat>)
    decreases t, 0, 0
  {
    match t
    case Group(e) => InExpr(nchars, e, w)
    case Literal(c) => w == [c]
    case Any => |w| == 1 && w[0] < nchars && w[0] != NEWLINE && w[0] != RETURN
    case Bracket(negated, chars) => |w| == 1 && w[0] < nchars && (w[0] in chars) != negated
  }

  /** What `$` matches: a line terminator or the end of the input. */
  ghost predicate LineEnd(nchars: nat, w: seq<nat>) {
    || w == [NEWLINE] || w == [RETURN] || w == [RETURN, NEWLINE] || w == [Eof(nchars)]
    || (nchars > PARAGRAPH_SEPARATOR && (w == [LINE_SEPARATOR] || w == [PARAGRAPH_SEPARATOR]))
  }

  /** The words of the rule without its `^`. */
  ghost predicate InRuleBody(nchars: nat, r: Rule, w: seq<nat>) {
    if r.eol then
      exists k :: 0 <= k <= |w| && InExpr(nchars, r.expr, w[..k]) && LineEnd(nchars, w[k..])
    else InExpr(nchars, r.expr, w)
  }

  ghost predicate InRule(nchars: nat, r: Rule, w: seq<nat>) {
    if r.bol then w != [] && w[0] == Bol(nchars) && InRuleBody(nchars, r, w[1..])
    else InRuleBody(nchars, r, w)
  }

  /** Rule number `k` of the machine: a rule of the specification, or the last,
      silent rule that absorbs one pseudo-character in every lexical state. */
  ghost predicate Matches(s: Spec, k: nat, w: seq<nat>)
    requires k <= |s.rules|
  {
    if k < |s.rules| then InRule(s.nchars, s.rules[k], w)
    else w == [Bol(s.nchars)] || w == [Eof(s.nchars)]
  }

  ghost predicate ActiveIn(s: Spec, k: nat, state: nat)
    requires k <= |s.rules|
  {
    k == |s.rules| || state in s.rules[k].states
  }
}
