/** pyproject_convert.py: PEP 440 version specifiers as RPM version ranges. */
module RpmVersions {
  import opened Basics

  /** The stages of pre-releases, in order. */
  datatype Stage = Alpha | Beta | Candidate

  /** A final release, or one pre-, development or post-release of it. */
  datatype Suffix = Final | Pre(stage: Stage, n: nat) | Dev(n: nat) | Post(n: nat)

  /** A version, such as 1!2.0.3rc1: epoch 1, release 2.0.3, first candidate. */
  datatype Version = Version(epoch: nat, numbers: seq<nat>, suffix: Suffix)

  datatype Operator = Compatible | Equal | NotEqual | Less | LessEqual | Greater | GreaterEqual

  /** An operator, the version of a final release, and whether `.*` follows it. */
  datatype Specifier = Specifier(op: Operator, version: Version, star: bool)

  ghost predicate SpecifierOk(s: Specifier) {
    s.version.numbers != [] && s.version.suffix.Final?
  }

  // The order of RPM.

  /** Pieces of an RPM version.  A tilde sorts before everything, the end included; a caret sorts before
      everything but the end. */
  datatype Token = Number(n: nat) | Letters(s: string) | Tilde | Caret

  /** The part of an RPM version that matters here: [epoch:]version. */
  datatype Evr = Evr(epoch: nat, version: seq<Token>)

  function StringCmp(a: string, b: string): int
    decreases |a|
  {
    if a == [] then (if b == [] then 0 else -1)
    else if b == [] then 1
    else if a[0] < b[0] then -1
    else if a[0] > b[0] then 1
    else StringCmp(a[1..], b[1..])
  }

  function NumberCmp(a: nat, b: nat): int {
    if a < b then -1 else if a > b then 1 else 0
  }

  /** rpmvercmp on one piece of each: numbers are newer than letters. */
  function PieceCmp(a: Token, b: Token): int {
    match (a, b)
    case (Number(m), Number(n)) => NumberCmp(m, n)
    case (Letters(s), Letters(t)) => StringCmp(s, t)
    case (Number(_), _) => 1
    case _ => -1
  }

  /** rpmvercmp, on versions cut into pieces. */
  function Vercmp(a: seq<Token>, b: seq<Token>): int
    decreases |a|
  {
    if (a != [] && a[0].Tilde?) || (b != [] && b[0].Tilde?) then
      if a == [] || !a[0].Tilde? then 1
      else if b == [] || !b[0].Tilde? then -1
      else Vercmp(a[1..], b[1..])
    else if (a != [] && a[0].Caret?) || (b != [] && b[0].Caret?) then
      if a == [] then -1
      else if b == [] then 1
      else if !a[0].Caret? then 1
      else if !b[0].Caret? then -1
      else Vercmp(a[1..], b[1..])
    else if a == [] then (if b == [] then 0 else -1)
    else if b == [] then 1
    else
      var c := PieceCmp(a[0], b[0]);
      if c != 0 then c else Vercmp(a[1..], b[1..])
  }

  function EvrCmp(a: Evr, b: Evr): int {
    if a.epoch < b.epoch then -1 else if a.epoch > b.epoch then 1 else Vercmp(a.version, b.version)
  }

  /** A dependency on a package: a comparison, or two of them. */
  datatype Range =
    | Invalid
    | Than(op: Operator, bound: Evr)
    | With(first: Range, second: Range)
    | Either(first: Range, second: Range)
  {
    predicate Accepts(v: Evr) {
      match this
      case Invalid => false
      case Than(op, bound) => Compares(op, EvrCmp(v, bound))
      case With(a, b) => a.Accepts(v) && b.Accepts(v)
      case Either(a, b) => a.Accepts(v) || b.Accepts(v)
    }
  }

  predicate Compares(op: Operator, c: int) {
    match op
    case Less => c < 0
    case LessEqual => c <= 0
    case Greater => c > 0
    case GreaterEqual => c >= 0
    case Equal => c == 0
    case NotEqual => c != 0
    case Compatible => false
  }

  // The order and the specifiers of PEP 440.

  function Head(a: seq<nat>): nat {
    if a == [] then 0 else a[0]
  }

  function Tail(a: seq<nat>): seq<nat> {
    if a == [] then [] else a[1..]
  }

  /** Release numbers are compared one by one, the shorter padded with zeros. */
  function ReleaseCmp(a: seq<nat>, b: seq<nat>): int
    decreases |a| + |b|
  {
    if a == [] && b == [] then 0
    else if Head(a) < Head(b) then -1
    else if Head(a) > Head(b) then 1
    else ReleaseCmp(Tail(a), Tail(b))
  }

  /** Development releases come before pre-releases, these before the final release, and post-releases last. */
  function Rank(s: Suffix): nat {
    match s
    case Dev(_) => 0
    case Pre(Alpha, _) => 1
    case Pre(Beta, _) => 2
    case Pre(Candidate, _) => 3
    case Final => 4
    case Post(_) => 5
  }

  function Serial(s: Suffix): nat {
    match s
    case Final => 0
    case Pre(_, n) => n
    case Dev(n) => n
    case Post(n) => n
  }

  function SuffixCmp(a: Suffix, b: Suffix): int {
    if Rank(a) != Rank(b) then NumberCmp(Rank(a), Rank(b)) else NumberCmp(Serial(a), Serial(b))
  }

  function BaseCmp(a: Version, b: Version): int {
    if a.epoch < b.epoch then -1 else if a.epoch > b.epoch then 1 else ReleaseCmp(a.numbers, b.numbers)
  }

  function Cmp(a: Version, b: Version): int {
    if BaseCmp(a, b) != 0 then BaseCmp(a, b) else SuffixCmp(a.suffix, b.suffix)
  }

  function At(v: seq<nat>, i: nat): nat {
    if i < |v| then v[i] else 0
  }

  predicate HasPrefix(v: seq<nat>, p: seq<nat>) {
    forall i :: 0 <= i < |p| ==> At(v, i) == p[i]
  }

  /** Prefix matching: V.* ignores what follows the numbers of V. */
  predicate Matches(v: Version, prefix: Version) {
    v.epoch == prefix.epoch && HasPrefix(v.numbers, prefix.numbers)
  }

  /** A pre-release or development release. */
  predicate Early(v: Version) {
    v.suffix.Pre? || v.suffix.Dev?
  }

  /** Without the last number, and with the last number raised. */
  function Shorter(v: Version): Version
    requires v.numbers != []
  {
    v.(numbers := v.numbers[..|v.numbers| - 1])
  }

  function Incremented(a: seq<nat>): seq<nat>
    requires a != []
  {
    a[..|a| - 1] + [a[|a| - 1] + 1]
  }

  function Next(v: Version): Version
    requires v.numbers != []
  {
    v.(numbers := Incremented(v.numbers))
  }

  /** Which versions a specifier allows.  `< V` excludes the pre-releases of V, `> V` its post-releases.
      PEP 440 gives ordered comparisons with `.*` no meaning; here `> V.*` includes what V.* matches and
      `<= V.*` excludes it. */
  predicate Allows(s: Specifier, v: Version)
    requires s.version.numbers != []
  {
    match s.op
    case Compatible => Cmp(v, s.version) >= 0 && Matches(v, Shorter(s.version))
    case Equal => if s.star then Matches(v, s.version) else Cmp(v, s.version) == 0
    case NotEqual => !(if s.star then Matches(v, s.version) else Cmp(v, s.version) == 0)
    case Less => Below(v, s.version)
    case LessEqual => if s.star then Below(v, s.version) else Cmp(v, s.version) <= 0
    case Greater => if s.star then Cmp(v, s.version) >= 0 else Above(v, s.version)
    case GreaterEqual => Cmp(v, s.version) >= 0
  }

  predicate Below(v: Version, bound: Version) {
    Cmp(v, bound) < 0 && !(Early(v) && BaseCmp(v, bound) == 0)
  }

  predicate Above(v: Version, bound: Version) {
    Cmp(v, bound) > 0 && !(v.suffix.Post? && BaseCmp(v, bound) == 0)
  }

  /** The specifiers that have no translation: ~= with `.*` or with a single number. */
  predicate Untranslatable(s: Specifier) {
    s.op.Compatible? && (s.star || |s.version.numbers| == 1)
  }

  /** The versions for which a translation is wrong: pre-releases at the ends of a prefix match.  RPM puts
      those of V before V and those of the next release before the upper bound. */
  predicate Misplaced(s: Specifier, v: Version)
    requires s.version.numbers != []
  {
    Early(v) &&
    match s.op
    case Compatible => |s.version.numbers| > 1 && BaseCmp(v, Next(Shorter(s.version))) == 0
    case Equal => s.star && (BaseCmp(v, s.version) == 0 || BaseCmp(v, Next(s.version)) == 0)
    case NotEqual => s.star && BaseCmp(v, Next(s.version)) == 0
    case _ => false
  }

  // Rendering.

  /** What is left without trailing zeros; the first number always is. */
  function Trim(a: seq<nat>): (r: seq<nat>)
    ensures a != [] ==> r != []
    ensures |r| <= 1 || r[|r| - 1] != 0
  {
    if |a| > 1 && a[|a| - 1] == 0 then Trim(a[..|a| - 1]) else a
  }

  function Numbers(a: seq<nat>): seq<Token> {
    seq(|a|, i requires 0 <= i < |a| => Number(a[i]))
  }

  function StageLetters(s: Stage): string {
    match s
    case Alpha => "a"
    case Beta => "b"
    case Candidate => "rc"
  }

  /** The rpm_suffix of __str__. */
  function SuffixTokens(s: Suffix): seq<Token> {
    match s
    case Final => []
    case Pre(stage, n) => [Tilde, Letters(StageLetters(stage)), Number(n)]
    case Dev(n) => [Tilde, Tilde, Letters("dev"), Number(n)]
    case Post(n) => [Caret, Letters("post"), Number(n)]
  }

  function Rendered(v: Version): Evr {
    Evr(v.epoch, Numbers(Trim(v.numbers)) + SuffixTokens(v.suffix))
  }

  // Trailing zeros do not matter.

  lemma {:induction false} ZeroRight(a: seq<nat>, b: seq<nat>)
    ensures ReleaseCmp(a, b + [0]) == ReleaseCmp(a, b)
    decreases |a| + |b|
  {
    if a != [] || b != [] {
      assert b != [] ==> (b + [0])[1..] == b[1..] + [0];
      if b != [] {
        ZeroRight(Tail(a), Tail(b));
      } else {
        assert (b + [0])[1..] == [];
      }
    }
  }

  lemma {:induction false} Antisymmetric(a: seq<nat>, b: seq<nat>)
    ensures ReleaseCmp(a, b) == -ReleaseCmp(b, a)
    decreases |a| + |b|
  {
    if (a != [] || b != []) && Head(a) == Head(b) {
      Antisymmetric(Tail(a), Tail(b));
    }
  }

  lemma {:induction false} TrimRight(a: seq<nat>, b: seq<nat>)
    ensures ReleaseCmp(a, Trim(b)) == ReleaseCmp(a, b)
    decreases |b|
  {
    if |b| > 1 && b[|b| - 1] == 0 {
      var c := b[..|b| - 1];
      TrimRight(a, c);
      ZeroRight(a, c);
      assert b == c + [0];
    }
  }

  lemma {:induction false} TrimBoth(a: seq<nat>, b: seq<nat>)
    ensures ReleaseCmp(Trim(a), Trim(b)) == ReleaseCmp(a, b)
  {
    TrimRight(Trim(a), b);
    Antisymmetric(Trim(a), b);
    TrimRight(b, a);
    Antisymmetric(b, a);
  }

  /** A version without trailing zeros, compared with nothing. */
  lemma {:induction false} Positive(a: seq<nat>)
    requires a != [] && a[|a| - 1] != 0
    ensures ReleaseCmp(a, []) == 1 && ReleaseCmp([], a) == -1
    decreases |a|
  {
    if a[0] == 0 {
      Positive(a[1..]);
    }
  }

  ghost predicate NoTrailingZero(a: seq<nat>) {
    a == [] || a[|a| - 1] != 0
  }

  /** Trimmed: nothing but the first number may be a last zero. */
  ghost predicate Trimmed(a: seq<nat>) {
    a != [] && NoTrailingZero(a[1..])
  }

  lemma {:induction false} TrimTrims(a: seq<nat>)
    requires a != []
    ensures Trimmed(Trim(a))
  {}

  // The two orders agree.

  /** The tokens behind the first number. */
  lemma {:induction false} NumbersTail(a: seq<nat>, s: seq<Token>)
    ensures var t := Numbers(a) + s;
            if a == [] then t == s else t != [] && t[0] == Number(a[0]) && t[1..] == Numbers(a[1..]) + s
  {}

  /** Before the end of the numbers everything that may follow them sorts. */
  ghost predicate Ending(s: seq<Token>) {
    s == [] || s[0].Tilde? || s[0].Caret?
  }

  lemma {:induction false} OrderTails(a: seq<nat>, s: seq<Token>, b: seq<nat>, t: seq<Token>)
    requires NoTrailingZero(a) && NoTrailingZero(b) && Ending(s) && Ending(t)
    ensures Vercmp(Numbers(a) + s, Numbers(b) + t) == if ReleaseCmp(a, b) != 0 then ReleaseCmp(a, b) else Vercmp(s, t)
    decreases |a|
  {
    NumbersTail(a, s);
    NumbersTail(b, t);
    if a == [] {
      if b != [] { Positive(b); }
    } else if b == [] {
      Positive(a);
    } else if a[0] == b[0] {
      OrderTails(a[1..], s, b[1..], t);
    }
  }

  lemma {:induction false} OrderTokens(a: seq<nat>, s: seq<Token>, b: seq<nat>, t: seq<Token>)
    requires Trimmed(a) && Trimmed(b) && Ending(s) && Ending(t)
    ensures Vercmp(Numbers(a) + s, Numbers(b) + t) == if ReleaseCmp(a, b) != 0 then ReleaseCmp(a, b) else Vercmp(s, t)
  {
    NumbersTail(a, s);
    NumbersTail(b, t);
    if a[0] == b[0] {
      OrderTails(a[1..], s, b[1..], t);
    }
  }

  lemma {:induction false} SuffixOrder(a: Suffix, b: Suffix)
    ensures Vercmp(SuffixTokens(a), SuffixTokens(b)) == SuffixCmp(a, b)
  {
    StringSame("dev");
    StringSame("post");
    match (a, b)
    case (Pre(stage, m), Pre(stage', n)) =>
      StageOrder(stage, stage');
      SameFirst(Tilde, [Letters(StageLetters(stage)), Number(m)], [Letters(StageLetters(stage')), Number(n)]);
      LettersFirst(StageLetters(stage), m, StageLetters(stage'), n);
    case (Dev(m), Dev(n)) =>
      SameFirst(Tilde, [Tilde, Letters("dev"), Number(m)], [Tilde, Letters("dev"), Number(n)]);
      SameFirst(Tilde, [Letters("dev"), Number(m)], [Letters("dev"), Number(n)]);
      LettersFirst("dev", m, "dev", n);
    case (Post(m), Post(n)) =>
      SameFirst(Caret, [Letters("post"), Number(m)], [Letters("post"), Number(n)]);
      LettersFirst("post", m, "post", n);
    case (Pre(stage, m), Dev(n)) =>
      SameFirst(Tilde, [Letters(StageLetters(stage)), Number(m)], [Tilde, Letters("dev"), Number(n)]);
    case (Dev(n), Pre(stage, m)) =>
      SameFirst(Tilde, [Tilde, Letters("dev"), Number(n)], [Letters(StageLetters(stage)), Number(m)]);
    case _ =>
  }

  lemma {:induction false} StringSame(s: string)
    ensures StringCmp(s, s) == 0
  {
    if s != [] {
      StringSame(s[1..]);
    }
  }

  lemma {:induction false} StageOrder(a: Stage, b: Stage)
    ensures StringCmp(StageLetters(a), StageLetters(b)) == NumberCmp(Rank(Pre(a, 0)), Rank(Pre(b, 0)))
  {
    StringSame(StageLetters(a));
  }

  lemma {:induction false} SameFirst(x: Token, a: seq<Token>, b: seq<Token>)
    requires x.Tilde? || x.Caret?
    ensures Vercmp([x] + a, [x] + b) == Vercmp(a, b)
  {
    assert ([x] + a)[1..] == a && ([x] + b)[1..] == b;
  }

  lemma {:induction false} LettersFirst(s: string, m: nat, t: string, n: nat)
    ensures Vercmp([Letters(s), Number(m)], [Letters(t), Number(n)]) ==
            if StringCmp(s, t) != 0 then StringCmp(s, t) else NumberCmp(m, n)
  {
    assert [Letters(s), Number(m)][1..] == [Number(m)] && [Letters(t), Number(n)][1..] == [Number(n)];
    assert [Number(m)][1..] == [] && [Number(n)][1..] == [];
    assert Vercmp([Number(m)], [Number(n)]) == NumberCmp(m, n);
  }

  /** RPM orders converted versions as PEP 440 orders the originals. */
  lemma {:induction false} OrderPreserved(a: Version, b: Version)
    requires a.numbers != [] && b.numbers != []
    ensures EvrCmp(Rendered(a), Rendered(b)) == Cmp(a, b)
  {
    TrimTrims(a.numbers);
    TrimTrims(b.numbers);
    OrderTokens(Trim(a.numbers), SuffixTokens(a.suffix), Trim(b.numbers), SuffixTokens(b.suffix));
    TrimBoth(a.numbers, b.numbers);
    SuffixOrder(a.suffix, b.suffix);
  }

  // The bounds V~~ and V.0.

  /** What follows the numbers, compared with two tildes. */
  lemma {:induction false} SuffixAboveTildes(s: Suffix)
    ensures Vercmp(SuffixTokens(s), [Tilde, Tilde]) == 1
  {
    assert [Tilde, Tilde] == [Tilde] + [Tilde] && [Tilde] == [Tilde] + [];
    match s
    case Pre(stage, n) =>
      SameFirst(Tilde, [Letters(StageLetters(stage)), Number(n)], [Tilde]);
    case Dev(n) =>
      SameFirst(Tilde, [Tilde, Letters("dev"), Number(n)], [Tilde]);
      SameFirst(Tilde, [Letters("dev"), Number(n)], []);
    case _ =>
  }

  /** Less than V~~ is less in the numbers, whatever the suffix: no pre-release of V, and nothing is equal to V~~. */
  lemma {:induction false} BelowBound(c: Version, v: Version)
    requires c.numbers != [] && v.numbers != []
    ensures EvrCmp(Rendered(c), Evr(v.epoch, Numbers(Trim(v.numbers)) + [Tilde, Tilde])) == if BaseCmp(c, v) < 0
              then -1 else 1
  {
    TrimTrims(c.numbers);
    TrimTrims(v.numbers);
    OrderTokens(Trim(c.numbers), SuffixTokens(c.suffix), Trim(v.numbers), [Tilde, Tilde]);
    TrimBoth(c.numbers, v.numbers);
    ReleaseSign(c.numbers, v.numbers);
    SuffixAboveTildes(c.suffix);
  }

  lemma {:induction false} ReleaseSign(a: seq<nat>, b: seq<nat>)
    ensures ReleaseCmp(a, b) in {-1, 0, 1}
    decreases |a| + |b|
  {
    if (a != [] || b != []) && Head(a) == Head(b) {
      ReleaseSign(Tail(a), Tail(b));
    }
  }

  /** More than V.0 is more in the numbers, for versions without trailing zeros, whatever the suffix. */
  lemma {:induction false} AboveZeroTails(a: seq<nat>, s: seq<Token>, b: seq<nat>)
    requires NoTrailingZero(a) && NoTrailingZero(b) && Ending(s)
    ensures Vercmp(Numbers(a) + s, Numbers(b) + [Number(0)]) > 0 <==> ReleaseCmp(a, b) > 0
    decreases |b|
  {
    NumbersTail(a, s);
    NumbersTail(b, [Number(0)]);
    if b == [] {
      assert [Number(0)][1..] == [];
      if a != [] {
        Positive(a);
        NumbersTail(a[1..], s);
      }
    } else if a == [] {
      Positive(b);
    } else if a[0] == b[0] {
      AboveZeroTails(a[1..], s, b[1..]);
    }
  }

  lemma {:induction false} AboveBound(c: Version, v: Version)
    requires c.numbers != [] && v.numbers != []
    ensures EvrCmp(Rendered(c), Evr(v.epoch, Numbers(Trim(v.numbers)) + [Number(0)])) > 0 <==> BaseCmp(c, v) > 0
  {
    var a, b, s := Trim(c.numbers), Trim(v.numbers), SuffixTokens(c.suffix);
    TrimTrims(c.numbers);
    TrimTrims(v.numbers);
    TrimBoth(c.numbers, v.numbers);
    NumbersTail(a, s);
    NumbersTail(b, [Number(0)]);
    if a[0] == b[0] {
      AboveZeroTails(a[1..], s, b[1..]);
    }
  }

  // Prefix matching is an interval of releases.

  lemma {:induction false} PrefixTail(v: seq<nat>, p: seq<nat>)
    requires p != []
    ensures HasPrefix(v, p) <==> Head(v) == p[0] && HasPrefix(Tail(v), p[1..])
  {
    if Head(v) == p[0] && HasPrefix(Tail(v), p[1..]) {
      forall i | 0 <= i < |p| ensures At(v, i) == p[i] {
        if i > 0 {
          assert At(Tail(v), i - 1) == p[1..][i - 1];
        }
      }
    }
    if HasPrefix(v, p) {
      assert At(v, 0) == p[0];
      forall i | 0 <= i < |p| - 1 ensures At(Tail(v), i) == p[1..][i] {
        assert At(v, i + 1) == p[i + 1];
      }
    }
  }

  lemma {:induction false} Interval(v: seq<nat>, p: seq<nat>)
    requires p != []
    ensures HasPrefix(v, p) <==> ReleaseCmp(v, p) >= 0 && ReleaseCmp(v, Incremented(p)) < 0
    decreases |p|
  {
    PrefixTail(v, p);
    if |p| == 1 {
      AtLeastZero(Tail(v));
    } else {
      assert Incremented(p)[0] == p[0] && Incremented(p)[1..] == Incremented(p[1..]);
      if Head(v) == p[0] {
        Interval(Tail(v), p[1..]);
      }
    }
  }

  lemma {:induction false} AtLeastZero(v: seq<nat>)
    ensures ReleaseCmp(v, []) >= 0
  {
    if v != [] {
      AtLeastZero(v[1..]);
    }
  }

  /** The releases matching V.* are those from V up to the increment of V. */
  lemma {:induction false} MatchInterval(v: Version, p: Version)
    requires p.numbers != []
    ensures Matches(v, p) <==> BaseCmp(v, p) >= 0 && BaseCmp(v, Next(p)) < 0
  {
    Interval(v.numbers, p.numbers);
  }

  /** A version is not less than its prefixes. */
  lemma {:induction false} AbovePrefix(c: seq<nat>, v: seq<nat>)
    requires v != []
    ensures ReleaseCmp(c, v) >= 0 ==> ReleaseCmp(c, v[..|v| - 1]) >= 0
    decreases |v|
  {
    if |v| == 1 {
      AtLeastZero(c);
    } else if Head(c) == v[0] {
      assert v[..|v| - 1][1..] == v[1..][..|v| - 2];
      AbovePrefix(Tail(c), v[1..]);
    }
  }

  /** The increment is greater. */
  lemma {:induction false} NextAbove(v: seq<nat>, p: seq<nat>)
    requires p != []
    ensures ReleaseCmp(v, Incremented(p)) >= 0 ==> ReleaseCmp(v, p) > 0
    decreases |p|
  {
    if |p| > 1 {
      assert Incremented(p)[0] == p[0] && Incremented(p)[1..] == Incremented(p[1..]);
      if Head(v) == p[0] {
        NextAbove(Tail(v), p[1..]);
      }
    }
  }

  // The conversion.

  class RpmVersion {
    var epoch: nat
    var version: seq<nat>
    const suffix: Suffix

    constructor (v: Version)
      ensures epoch == v.epoch && version == v.numbers && suffix == v.suffix
    {
      epoch, version, suffix := v.epoch, v.numbers, v.suffix;
    }

    method Pop()
      requires version != []
      modifies this`version
      ensures version == old(version)[..|old(version)| - 1]
    {
      version := version[..|version| - 1];
    }

    method Increment()
      requires version != []
      modifies this`version
      ensures version == Incremented(old(version))
    {
      version := version[|version| - 1 := version[|version| - 1] + 1];
    }

    /** __str__, which drops trailing zeros for good. */
    method Str() returns (e: Evr)
      modifies this`version
      ensures version == Trim(old(version)) && e == Rendered(Version(epoch, old(version), suffix))
    {
      while |version| > 1 && version[|version| - 1] == 0
        invariant Trim(version) == Trim(old(version))
        decreases |version|
      {
        version := version[..|version| - 1];
      }
      e := Evr(epoch, Numbers(version) + SuffixTokens(suffix));
    }
  }

  /** The translation accepts exactly what the specifier allows, except for the misplaced versions, for
      which it does the opposite. */
  ghost predicate Translates(r: Range, s: Specifier)
    requires s.version.numbers != []
  {
    forall v: Version :: v.numbers != [] ==> TranslatesAt(r, s, v)
  }

  ghost predicate TranslatesAt(r: Range, s: Specifier, v: Version)
    requires s.version.numbers != [] && v.numbers != []
  {
    r.Accepts(Rendered(v)) == (Allows(s, v) != Misplaced(s, v))
  }

  method ConvertCompatible(v: Version, star: bool) returns (r: Range)
    requires SpecifierOk(Specifier(Compatible, v, star))
    ensures r.Invalid? <==> Untranslatable(Specifier(Compatible, v, star))
    ensures !r.Invalid? ==> Translates(r, Specifier(Compatible, v, star))
  {
    if star {
      return Invalid;
    }
    var version := new RpmVersion(v);
    if |version.version| == 1 {
      return Invalid;
    }
    var upper := new RpmVersion(v);
    upper.Pop();
    upper.Increment();
    var low := version.Str();
    var high := upper.Str();
    r := With(Than(GreaterEqual, low), Than(Less, high));
    CompatibleRange(v);
  }

  /** Releases of the interval are matched; a pre-release of its upper bound is accepted nevertheless. */
  lemma {:induction false} CompatibleRange(v: Version)
    requires |v.numbers| > 1 && v.suffix.Final?
    ensures Translates(With(Than(GreaterEqual, Rendered(v)), Than(Less, Rendered(Next(Shorter(v))))),
                       Specifier(Compatible, v, false))
  {
    var p := Shorter(v);
    var r := With(Than(GreaterEqual, Rendered(v)), Than(Less, Rendered(Next(p))));
    forall c: Version | c.numbers != [] ensures TranslatesAt(r, Specifier(Compatible, v, false), c) {
      Between(c, v, Next(p));
      CompatibleAt(v, c);
    }
  }

  lemma {:induction false} Between(c: Version, low: Version, high: Version)
    requires c.numbers != [] && low.numbers != [] && high.numbers != []
    ensures With(Than(GreaterEqual, Rendered(low)), Than(Less, Rendered(high))).Accepts(Rendered(c)) ==
            (Cmp(c, low) >= 0 && Cmp(c, high) < 0)
  {
    OrderPreserved(c, low);
    OrderPreserved(c, high);
  }

  lemma {:induction false} CompatibleAt(v: Version, c: Version)
    requires |v.numbers| > 1 && v.suffix.Final? && c.numbers != []
    ensures var s := Specifier(Compatible, v, false);
            Cmp(c, v) >= 0 && Cmp(c, Next(Shorter(v))) < 0 <==> Allows(s, c) != Misplaced(s, c)
  {
    MatchInterval(c, Shorter(v));
    AbovePrefix(c.numbers, v.numbers);
    AboveNext(c.numbers, v.numbers);
  }

  lemma {:induction false} AboveNext(c: seq<nat>, v: seq<nat>)
    requires |v| > 1
    ensures ReleaseCmp(c, Incremented(v[..|v| - 1])) >= 0 ==> ReleaseCmp(c, v) > 0
    decreases |v|
  {
    if Head(c) == v[0] && |v| > 2 {
      var p := v[..|v| - 1];
      assert Incremented(p)[0] == p[0] && Incremented(p)[1..] == Incremented(p[1..]);
      assert p[1..] == v[1..][..|v| - 2];
      AboveNext(Tail(c), v[1..]);
    }
  }

  method ConvertEqual(v: Version, star: bool) returns (r: Range)
    requires SpecifierOk(Specifier(Equal, v, star))
    ensures Translates(r, Specifier(Equal, v, star)) && !r.Invalid?
  {
    if star {
      var w := v.(numbers := v.numbers + [0]);
      r := ConvertCompatible(w, false);
      EqualStar(v, w, r);
      return;
    }
    var version := new RpmVersion(v);
    var e := version.Str();
    r := Than(Equal, e);
    forall c: Version | c.numbers != [] ensures TranslatesAt(r, Specifier(Equal, v, false), c) {
      OrderPreserved(c, v);
    }
  }

  lemma {:induction false} EqualStar(v: Version, w: Version, r: Range)
    requires v.numbers != [] && w == v.(numbers := v.numbers + [0]) && v.suffix.Final?
    requires Translates(r, Specifier(Compatible, w, false))
    ensures Translates(r, Specifier(Equal, v, true))
  {
    assert Shorter(w) == v;
    forall c: Version | c.numbers != [] ensures TranslatesAt(r, Specifier(Equal, v, true), c) {
      assert TranslatesAt(r, Specifier(Compatible, w, false), c);
      MatchInterval(c, v);
      ZeroRight(c.numbers, v.numbers);
      NextAbove(c.numbers, v.numbers);
    }
  }

  method ConvertNotEqual(v: Version, star: bool) returns (r: Range)
    requires SpecifierOk(Specifier(NotEqual, v, star))
    ensures Translates(r, Specifier(NotEqual, v, star)) && !r.Invalid?
  {
    var version := new RpmVersion(v);
    if star {
      var above := new RpmVersion(v);
      above.Increment();
      var low := version.Str();
      var high := above.Str();
      r := Either(Than(Less, Evr(low.epoch, low.version + [Tilde, Tilde])), Than(GreaterEqual, high));
      OutsideRange(v);
    } else {
      var low := version.Str();
      var high := version.Str();
      Twice(v.numbers);
      r := Either(Than(Less, low), Than(Greater, high));
      forall c: Version | c.numbers != [] ensures TranslatesAt(r, Specifier(NotEqual, v, false), c) {
        OrderPreserved(c, v);
      }
    }
  }

  lemma {:induction false} OutsideRange(v: Version)
    requires v.numbers != [] && v.suffix.Final?
    ensures Translates(Either(Than(Less, Evr(v.epoch, Rendered(v).version + [Tilde, Tilde])),
                              Than(GreaterEqual, Rendered(Next(v)))),
                       Specifier(NotEqual, v, true))
  {
    var r := Either(Than(Less, Evr(v.epoch, Rendered(v).version + [Tilde, Tilde])),
        Than(GreaterEqual, Rendered(Next(v))));
    assert Rendered(v).version == Numbers(Trim(v.numbers));
    forall c: Version | c.numbers != [] ensures TranslatesAt(r, Specifier(NotEqual, v, true), c) {
      OrderPreserved(c, Next(v));
      BelowBound(c, v);
      MatchInterval(c, v);
      NextAbove(c.numbers, v.numbers);
    }
  }

  /** Rendering a version again changes nothing. */
  lemma {:induction false} Twice(a: seq<nat>)
    ensures Trim(Trim(a)) == Trim(a)
  {}

  method ConvertOrdered(op: Operator, v: Version, star: bool) returns (r: Range)
    requires SpecifierOk(Specifier(op, v, star)) && op in {Less, LessEqual, Greater, GreaterEqual}
    ensures Translates(r, Specifier(op, v, star)) && !r.Invalid?
  {
    var o := op;
    if star {
      if o == Greater {
        o := GreaterEqual;
      }
      if o == LessEqual {
        o := Less;
      }
    }
    var version := new RpmVersion(v);
    var e := version.Str();
    if o == Less {
      e := e.(version := e.version + [Tilde, Tilde]);
    }
    if o == Greater {
      e := e.(version := e.version + [Number(0)]);
    }
    r := Than(o, e);
    assert Rendered(v).version == Numbers(Trim(v.numbers));
    forall c: Version | c.numbers != [] ensures TranslatesAt(r, Specifier(op, v, star), c) {
      OrderPreserved(c, v);
      BelowBound(c, v);
      AboveBound(c, v);
    }
  }

  /** convert: exactly the allowed versions but for the misplaced ones, or no translation. */
  method Convert(s: Specifier) returns (r: Range)
    requires SpecifierOk(s)
    ensures r.Invalid? <==> Untranslatable(s)
    ensures !r.Invalid? ==> Translates(r, s)
  {
    match s.op {
      case Compatible => r := ConvertCompatible(s.version, s.star);
      case Equal => r := ConvertEqual(s.version, s.star);
      case NotEqual => r := ConvertNotEqual(s.version, s.star);
      case _ => r := ConvertOrdered(s.op, s.version, s.star);
    }
  }

  /** The pre-release 1.1a1 matches 1.1.*, but the range for `== 1.1.*` starts at 1.1; 1.2a1 does not
      match, but comes before the end of the range. */
  lemma {:induction false} PrefixPreReleases(r: Range)
    requires Translates(r, Specifier(Equal, Version(0, [1, 1], Final), true))
    ensures var s, low, high := Specifier(Equal, Version(0, [1, 1], Final), true),
                                Version(0, [1, 1], Pre(Alpha, 1)), Version(0, [1, 2], Pre(Alpha, 1));
            Allows(s, low) && !r.Accepts(Rendered(low)) && !Allows(s, high) && r.Accepts(Rendered(high))
  {
    var s, v := Specifier(Equal, Version(0, [1, 1], Final), true), Version(0, [1, 1], Final);
    var low, high := Version(0, [1, 1], Pre(Alpha, 1)), Version(0, [1, 2], Pre(Alpha, 1));
    assert Next(v).numbers == [1, 2];
    assert ReleaseCmp([1, 1], [1, 1]) == 0 && ReleaseCmp([1, 2], [1, 2]) == 0;
    assert At([1, 2], 1) != v.numbers[1];
    assert TranslatesAt(r, s, low) && TranslatesAt(r, s, high);
  }
}
