/** What is left of the characters that a rule with `$` matched. */
module LineEnds {
  import opened Basics
  import opened Regex
  import opened Buffer
  import opened Munch
  import Rules

  // Expressions match characters only, no BOL and no EOF.

  lemma {:induction false} ExprOver(nchars: nat, e: Expr, w: seq<nat>)
    requires ExprOk(nchars, e) && InExpr(nchars, e, w)
    ensures Over(w, nchars)
    decreases e, 0, 0
  {
    var i :| 0 <= i < |e.cats| && InCat(nchars, e.cats[i], |e.cats[i].factors|, w);
    CatOver(nchars, e.cats[i], |e.cats[i].factors|, w);
  }

  lemma {:induction false} CatOver(nchars: nat, c: Cat, j: nat, w: seq<nat>)
    requires CatOk(nchars, c) && j <= |c.factors| && InCat(nchars, c, j, w)
    ensures Over(w, nchars)
    decreases c, j, 0
  {
    if j > 0 {
      var k :| 0 <= k <= |w| && InCat(nchars, c, j - 1, w[..k]) && InFactor(nchars, c.factors[j - 1], w[k..]);
      CatOver(nchars, c, j - 1, w[..k]);
      FactorOver(nchars, c.factors[j - 1], w[k..]);
      OverConcat(w, k, nchars);
    }
  }

  lemma {:induction false} OverConcat(w: seq<nat>, k: nat, n: nat)
    requires k <= |w| && Over(w[..k], n) && Over(w[k..], n)
    ensures Over(w, n)
  {
    forall i | 0 <= i < |w| ensures w[i] < n {
      assert w[i] == if i < k then w[..k][i] else w[k..][i - k];
    }
  }

  lemma {:induction false} FactorOver(nchars: nat, f: Factor, w: seq<nat>)
    requires TermOk(nchars, f.term) && InFactor(nchars, f, w)
    ensures Over(w, nchars)
    decreases f, 0, 0
  {
    match f.closure
    case Once => TermOver(nchars, f.term, w);
    case Optional => if w != [] { TermOver(nchars, f.term, w); }
    case Star => StarOver(nchars, f.term, w);
    case Plus =>
      var k :| 0 <= k <= |w| && InTerm(nchars, f.term, w[..k]) && InStar(nchars, f.term, w[k..]);
      TermOver(nchars, f.term, w[..k]);
      StarOver(nchars, f.term, w[k..]);
      OverConcat(w, k, nchars);
  }

  lemma {:induction false} StarOver(nchars: nat, t: Term, w: seq<nat>)
    requires TermOk(nchars, t) && InStar(nchars, t, w)
    ensures Over(w, nchars)
    decreases t, 1, |w|
  {
    if w != [] {
      var k :| 0 < k <= |w| && InTerm(nchars, t, w[..k]) && InStar(nchars, t, w[k..]);
      TermOver(nchars, t, w[..k]);
      StarOver(nchars, t, w[k..]);
      OverConcat(w, k, nchars);
    }
  }

  lemma {:induction false} TermOver(nchars: nat, t: Term, w: seq<nat>)
    requires TermOk(nchars, t) && InTerm(nchars, t, w)
    ensures Over(w, nchars)
    decreases t, 0, 0
  {
    if t.Group? {
      ExprOver(nchars, t.expr, w);
    }
  }

  // Line starts.

  ghost predicate EndsWithLineEnd(nchars: nat, s: seq<nat>) {
    exists k :: 0 <= k < |s| && LineEnd(nchars, s[k..])
  }

  /** Behind which texts `^` matches: those that end with what `$` matches.  Only in an alphabet that
      ends between the two separators does `^` know one that `$` does not. */
  ghost predicate LineStartAfter(nchars: nat, s: seq<nat>) {
    || EndsWithLineEnd(nchars, s)
    || (nchars == PARAGRAPH_SEPARATOR && s != [] && s[|s| - 1] == LINE_SEPARATOR)
  }

  /** What the scanner takes for a line start. */
  lemma {:induction false} LineStartMeans(nchars: nat, s: seq<nat>)
    requires Over(s, nchars)
    ensures EndsLine(s) <==> LineStartAfter(nchars, s)
  {
    if s != [] {
      var n := |s| - 1;
      assert s[n..] == [s[n]];
      if EndsLine(s) && !(nchars == PARAGRAPH_SEPARATOR && s[n] == LINE_SEPARATOR) {
        assert LineEnd(nchars, s[n..]);
      }
      if EndsWithLineEnd(nchars, s) {
        var k :| 0 <= k < |s| && LineEnd(nchars, s[k..]);
        assert s[k..][|s[k..]| - 1] == s[n];
      }
    }
  }

  /** What yyline counts: one for every CR, LF or CR LF, where a LF behind a CR belongs to it, and
      nothing for any other character. */
  lemma {:induction false} LineEndCounts(nchars: nat, x: seq<nat>, e: seq<nat>)
    requires nchars >= 128 && LineEnd(nchars, e)
    ensures Lines(x + e) == Lines(x) +
            if e == [RETURN] || e == [RETURN, NEWLINE] || (e == [NEWLINE] && !EndsWithReturn(x)) then 1 else 0
  {
    if e == [RETURN, NEWLINE] {
      assert (x + e)[..|x| + 1] == x + [RETURN] && (x + [RETURN])[..|x|] == x;
    } else {
      assert (x + e)[..|x|] == x;
    }
  }

  lemma {:induction false} OtherCounts(x: seq<nat>, c: nat)
    requires c != NEWLINE && c != RETURN
    ensures Lines(x + [c]) == Lines(x)
  {
    assert (x + [c])[..|x|] == x;
  }

  /** The text of a token: the characters of the first `m` symbols, after yy_move_end if the rule has `$`. */
  function TokenText(spec: Spec, k: nat, bol: bool, rest: seq<nat>, m: nat): seq<nat>
    requires k <= |spec.rules|
  {
    var chars := rest[..Real(bol, rest, m)];
    if Rules.AnchorOf(spec, k).atEnd then WithoutEol(chars) else chars
  }

  /** A rule with `$` matches `w` as a word `x` of its expression in front of the line end `e`. */
  ghost predicate EndSplit(nchars: nat, rule: Rule, w: seq<nat>, x: seq<nat>, e: seq<nat>) {
    && w == (if rule.bol then [Bol(nchars)] else []) + x + e
    && InExpr(nchars, rule.expr, x) && LineEnd(nchars, e)
  }

  /** The line ends that yy_move_end removes from behind `x`, with nothing else: CR, CR LF, LF not
      preceded by CR, and the end of the input behind a text that ends in neither. */
  predicate Removed(nchars: nat, x: seq<nat>, e: seq<nat>) {
    || e == [RETURN] || e == [RETURN, NEWLINE]
    || (e == [NEWLINE] && !EndsWithReturn(x))
    || (e == [Eof(nchars)] && !EndsWithReturn(x) && (x == [] || x[|x| - 1] != NEWLINE))
  }

  /** The text of a token of a rule with `$`: it is the word of the expression exactly when the line
      end is one that is removed. */
  ghost predicate EndOfLine(nchars: nat, rule: Rule, w: seq<nat>, text: seq<nat>) {
    && (exists x, e :: EndSplit(nchars, rule, w, x, e))
    && forall x, e :: EndSplit(nchars, rule, w, x, e) ==> (text == x <==> Removed(nchars, x, e))
  }

  /** The characters behind `x` that `$` matched. */
  function RealEnd(nchars: nat, e: seq<nat>): seq<nat> {
    if e == [Eof(nchars)] then [] else e
  }

  lemma {:induction false} MoveEndExact(nchars: nat, x: seq<nat>, e: seq<nat>)
    requires nchars >= 128 && LineEnd(nchars, e)
    ensures WithoutEol(x + RealEnd(nchars, e)) == x <==> Removed(nchars, x, e)
  {
    var s := x + RealEnd(nchars, e);
    if e == [RETURN, NEWLINE] {
      assert s[..|s| - 1] == x + [RETURN] && (x + [RETURN])[..|x|] == x;
    } else if e == [Eof(nchars)] {
      assert s == x;
    } else {
      assert s[..|s| - 1] == x;
    }
  }

  /** A rule with `^` matches at a line start only, any other rule elsewhere only. */
  lemma {:induction false} SameBol(nchars: nat, rule: Rule, bol: bool, rest: seq<nat>, m: nat, x: seq<nat>, e: seq<nat>)
    requires ExprOk(nchars, rule.expr) && nchars >= 128 && Over(rest, nchars)
    requires EndSplit(nchars, rule, Prefix(nchars, bol, rest, m), x, e)
    ensures bol == rule.bol
  {
    var w := Prefix(nchars, bol, rest, m);
    ExprOver(nchars, rule.expr, x);
    assert w[0] == SymbolAt(nchars, bol, rest, 0);
    if !rule.bol {
      assert w == x + e;
      assert w[0] == if x != [] then x[0] else e[0];
    }
  }

  /** Symbols `0..n` behind BOL. */
  lemma {:induction false} RealCharacters(nchars: nat, bol: bool, rest: seq<nat>, m: nat, x: seq<nat>, e: seq<nat>)
    requires nchars >= 128 && Over(rest, nchars) && Over(x, nchars) && LineEnd(nchars, e)
    requires Prefix(nchars, bol, rest, m) == (if bol then [Bol(nchars)] else []) + x + e
    ensures rest[..Real(bol, rest, m)] == x + RealEnd(nchars, e)
  {
    var w, d := Prefix(nchars, bol, rest, m), if bol then 1 else 0;
    var body := x + e;
    assert |body| == m - d;
    forall i | 0 <= i < |body| ensures body[i] == if i < |rest| then rest[i] else Eof(nchars) {
      assert w[d + i] == SymbolAt(nchars, bol, rest, d + i) && w[d + i] == body[i];
    }
    if e == [Eof(nchars)] {
      assert forall i :: 0 <= i < |x| ==> x[i] == body[i];
      InsideInput(nchars, x, rest);
      assert body[|x|] == Eof(nchars);
      assert rest[..|x|] == rest;
    } else {
      InsideInput(nchars, body, rest);
    }
  }

  lemma {:induction false} InsideInput(nchars: nat, s: seq<nat>, rest: seq<nat>)
    requires Over(s, nchars) && forall i :: 0 <= i < |s| ==> s[i] == if i < |rest| then rest[i] else Eof(nchars)
    ensures |s| <= |rest| && s == rest[..|s|]
  {
    if s != [] {
      assert s[|s| - 1] < nchars;
    }
  }

  lemma {:induction false} EndText(spec: Spec, k: nat, bol: bool, rest: seq<nat>, m: nat, x: seq<nat>, e: seq<nat>)
    requires SpecOk(spec) && k < |spec.rules| && spec.rules[k].eol && Over(rest, spec.nchars)
    requires EndSplit(spec.nchars, spec.rules[k], Prefix(spec.nchars, bol, rest, m), x, e)
    ensures TokenText(spec, k, bol, rest, m) == x <==> Removed(spec.nchars, x, e)
  {
    SameBol(spec.nchars, spec.rules[k], bol, rest, m, x, e);
    ExprOver(spec.nchars, spec.rules[k].expr, x);
    RealCharacters(spec.nchars, bol, rest, m, x, e);
    MoveEndExact(spec.nchars, x, e);
  }

  lemma {:induction false} HasSplit(nchars: nat, rule: Rule, w: seq<nat>)
    requires rule.eol && InRule(nchars, rule, w)
    ensures exists x, e :: EndSplit(nchars, rule, w, x, e)
  {
    var body := if rule.bol then w[1..] else w;
    assert w == (if rule.bol then [Bol(nchars)] else []) + body;
    BodySplit(nchars, rule, w, body);
  }

  lemma {:induction false} BodySplit(nchars: nat, rule: Rule, w: seq<nat>, body: seq<nat>)
    requires rule.eol && InRuleBody(nchars, rule, body) && w == (if rule.bol then [Bol(nchars)] else []) + body
    ensures exists x, e :: EndSplit(nchars, rule, w, x, e)
  {
    var j :| 0 <= j <= |body| && InExpr(nchars, rule.expr, body[..j]) && LineEnd(nchars, body[j..]);
    SplitBehind(if rule.bol then [Bol(nchars)] else [], body, j);
    assert EndSplit(nchars, rule, w, body[..j], body[j..]);
  }

  lemma {:induction false} SplitBehind(a: seq<nat>, b: seq<nat>, j: nat)
    requires j <= |b|
    ensures a + b == a + b[..j] + b[j..]
  {}

  lemma {:induction false} EndTexts(spec: Spec, k: nat, bol: bool, rest: seq<nat>, m: nat)
    requires SpecOk(spec) && k < |spec.rules| && spec.rules[k].eol && Over(rest, spec.nchars)
    requires Matches(spec, k, Prefix(spec.nchars, bol, rest, m))
    ensures EndOfLine(spec.nchars, spec.rules[k], Prefix(spec.nchars, bol, rest, m), TokenText(spec, k, bol, rest, m))
  {
    var rule, w := spec.rules[k], Prefix(spec.nchars, bol, rest, m);
    HasSplit(spec.nchars, rule, w);
    forall x, e | EndSplit(spec.nchars, rule, w, x, e)
      ensures TokenText(spec, k, bol, rest, m) == x <==> Removed(spec.nchars, x, e)
    {
      EndText(spec, k, bol, rest, m, x, e);
    }
  }
}
