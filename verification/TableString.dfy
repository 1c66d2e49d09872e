/** Tables travel in the generated source as strings: emit_table_as_string writes
    "value" or "value:length" items, unpackFromString reads them back. */
module TableString {
  // Decimal numbers.

  function Digits(n: nat): (s: string)
    ensures s != [] && forall i :: 0 <= i < |s| ==> '0' <= s[i] <= '9'
  {
    if n < 10 then ['0' + n as char] else Digits(n / 10) + ['0' + (n % 10) as char]
  }

  function Power10(i: nat): (p: nat)
    ensures p > 0
  {
    if i == 0 then 1 else 10 * Power10(i - 1)
  }

  lemma {:induction false} DivideTwice(n: nat, p: nat)
    requires p > 0
    ensures n / 10 / p == n / (10 * p)
  {
    var q, r := DivMod(n / 10, p);
    var q', r' := DivMod(n, 10 * p);
    SameQuotient(n, p, q, r, q', r');
  }

  lemma {:induction false} DivMod(n: nat, d: nat) returns (q: nat, r: nat)
    requires d > 0
    ensures n == d * q + r && r < d && q == n / d
  {
    q, r := n / d, n % d;
  }

  lemma {:induction false} SameQuotient(n: nat, p: nat, q: nat, r: nat, q': nat, r': nat)
    requires n / 10 == p * q + r && r < p && n == (10 * p) * q' + r' && r' < 10 * p
    ensures q == q'
  {
    Product(p, q, r, n % 10);
    OneQuotient(10 * p, q', r', q, 10 * r + n % 10);
  }

  lemma {:induction false} Product(p: nat, q: nat, r: nat, e: nat)
    ensures 10 * (p * q + r) + e == (10 * p) * q + (10 * r + e)
  {}

  lemma {:induction false} OneQuotient(d: nat, a: nat, r: nat, b: nat, s: nat)
    requires d * a + r == d * b + s && r < d && s < d
    ensures a == b
  {
    if a < b {
      Gap(d, a, b);
    } else if b < a {
      Gap(d, b, a);
    }
  }

  lemma {:induction false} Gap(d: nat, a: nat, b: nat)
    requires a < b
    ensures d * b >= d * a + d
    decreases b
  {
    OneMoreTimes(d, b - 1);
    if a < b - 1 {
      Gap(d, a, b - 1);
    }
  }

  lemma {:induction false} OneMoreTimes(d: nat, k: nat)
    ensures d * (k + 1) == d * k + d
  {}

  /** Counted from the right, digit `i` is the number of times 10^i goes into n, modulo ten; there is no
      leading zero. */
  lemma {:induction false} DigitAt(n: nat, i: nat)
    requires i < |Digits(n)|
    ensures Digits(n)[|Digits(n)| - 1 - i] == '0' + (n / Power10(i) % 10) as char
    ensures n > 0 ==> Digits(n)[0] != '0'
  {
    if n >= 10 {
      DivideTwice(n, Power10(if i > 0 then i - 1 else 0));
      DigitAt(n / 10, if i > 0 then i - 1 else 0);
    }
  }

  /** StringBuffer.append(int). */
  function Print(n: int): (s: string)
    ensures s != [] && forall i :: 0 <= i < |s| ==> s[i] == '-' || '0' <= s[i] <= '9'
  {
    if n < 0 then "-" + Digits(-n) else Digits(n)
  }

  function ParseDigits(s: string): nat {
    if s == [] then 0
    else 10 * ParseDigits(s[..|s| - 1]) + (if '0' <= s[|s| - 1] <= '9' then (s[|s| - 1] - '0') as nat else 0)
  }

  /** Integer.parseInt on well-formed numerals. */
  function Parse(s: string): int {
    if s != [] && s[0] == '-' then -(ParseDigits(s[1..]) as int) else ParseDigits(s)
  }

  lemma {:induction false} ParseOfDigits(n: nat)
    ensures ParseDigits(Digits(n)) == n
  {
    if n < 10 {
      assert Digits(n)[..0] == [];
    } else {
      ParseOfDigits(n / 10);
      assert Digits(n)[..|Digits(n)| - 1] == Digits(n / 10);
    }
  }

  lemma {:induction false} ParseOfPrint(n: int)
    ensures Parse(Print(n)) == n
  {
    if n < 0 {
      ParseOfDigits(-n);
      assert Print(n)[1..] == Digits(-n);
    } else {
      ParseOfDigits(n);
    }
  }

  // Runs of equal values.

  datatype Run = Run(value: int, count: nat)

  /** The maximal runs of a sequence. */
  function RunsOf(xs: seq<int>): (rs: seq<Run>)
    ensures xs != [] ==> rs != [] && rs[|rs| - 1].value == xs[|xs| - 1] && rs[|rs| - 1].count > 0
  {
    if xs == [] then [] else AddRun(RunsOf(xs[..|xs| - 1]), xs[|xs| - 1])
  }

  /** The runs after one more entry. */
  function AddRun(rs: seq<Run>, x: int): (rs': seq<Run>)
    ensures rs' != [] && rs'[|rs'| - 1].value == x && rs'[|rs'| - 1].count > 0
  {
    if rs != [] && rs[|rs| - 1].value == x
    then rs[..|rs| - 1] + [Run(x, rs[|rs| - 1].count + 1)]
    else rs + [Run(x, 1)]
  }

  /** The runs after more entries. */
  function AddRuns(rs: seq<Run>, xs: seq<int>): seq<Run> {
    if xs == [] then rs else AddRun(AddRuns(rs, xs[..|xs| - 1]), xs[|xs| - 1])
  }

  lemma {:induction false} RunsConcat(xs: seq<int>, ys: seq<int>)
    ensures RunsOf(xs + ys) == AddRuns(RunsOf(xs), ys)
  {
    if ys == [] {
      assert xs + ys == xs;
    } else {
      RunsConcat(xs, ys[..|ys| - 1]);
      assert (xs + ys)[..|xs + ys| - 1] == xs + ys[..|ys| - 1];
    }
  }

  lemma {:induction false} AddRunsSnoc(rs: seq<Run>, xs: seq<int>, i: nat)
    requires i < |xs|
    ensures AddRuns(rs, xs[..i + 1]) == AddRun(AddRuns(rs, xs[..i]), xs[i])
  {
    assert xs[..i + 1][..i] == xs[..i];
  }

  lemma {:induction false} AddRunsConcat(rs: seq<Run>, xs: seq<int>, ys: seq<int>)
    ensures AddRuns(rs, xs + ys) == AddRuns(AddRuns(rs, xs), ys)
  {
    if ys == [] {
      assert xs + ys == xs;
    } else {
      AddRunsConcat(rs, xs, ys[..|ys| - 1]);
      assert (xs + ys)[..|xs + ys| - 1] == xs + ys[..|ys| - 1];
    }
  }

  /** Runs are not empty and neighbours differ. */
  ghost predicate Proper(rs: seq<Run>) {
    && (forall k :: 0 <= k < |rs| ==> rs[k].count > 0)
    && forall i, j :: 0 <= i < |rs| && j == i + 1 && j < |rs| ==> rs[i].value != rs[j].value
  }

  lemma {:induction false} RunsProper(xs: seq<int>)
    ensures Proper(RunsOf(xs))
  {
    if xs != [] {
      RunsProper(xs[..|xs| - 1]);
      AddRunProper(RunsOf(xs[..|xs| - 1]), xs[|xs| - 1]);
    }
  }

  lemma {:induction false} AddRunProper(rs: seq<Run>, x: int)
    requires Proper(rs)
    ensures Proper(AddRun(rs, x))
  {
    var n, rs' := |rs|, AddRun(rs, x);
    if rs != [] && rs[n - 1].value == x {
      assert |rs'| == n && forall k :: 0 <= k < n ==> rs'[k].value == rs[k].value;
      assert forall k :: 0 <= k < n - 1 ==> rs'[k] == rs[k];
    } else {
      assert |rs'| == n + 1 && forall k :: 0 <= k < n ==> rs'[k] == rs[k];
    }
  }

  // Text is made of numerals, colons and commas.

  datatype Mark = Num(n: int) | Colon | Comma

  type Marks = seq<Mark>

  function MarkText(k: Mark): (s: string)
    ensures s != []
  {
    match k
    case Num(n) => Print(n)
    case Colon => ":"
    case Comma => ","
  }

  function Chars(ms: Marks): string {
    if ms == [] then [] else MarkText(ms[0]) + Chars(ms[1..])
  }

  lemma {:induction false} CharsConcat(ms: Marks, ns: Marks)
    ensures Chars(ms + ns) == Chars(ms) + Chars(ns)
  {
    if ms == [] {
      assert ms + ns == ns;
    } else {
      CharsConcat(ms[1..], ns);
      assert (ms + ns)[1..] == ms[1..] + ns;
      Associative(MarkText(ms[0]), Chars(ms[1..]), Chars(ns));
    }
  }

  lemma {:induction false} Associative<T>(a: seq<T>, b: seq<T>, c: seq<T>)
    ensures (a + b) + c == a + (b + c)
  {}

  function Item(r: Run): Marks {
    if r.count == 1 then [Num(r.value)] else [Num(r.value), Colon, Num(r.count)]
  }

  /** Items, each followed by a comma. */
  function Finished(rs: seq<Run>): Marks {
    if rs == [] then [] else Finished(rs[..|rs| - 1]) + (Item(rs[|rs| - 1]) + [Comma])
  }

  /** Items separated by commas. */
  function Text(rs: seq<Run>): Marks
    requires rs != []
  {
    if |rs| == 1 then Item(rs[0]) else (Item(rs[0]) + [Comma]) + Text(rs[1..])
  }

  lemma {:induction false} TextSplits(rs: seq<Run>)
    requires rs != []
    ensures Text(rs) == Finished(rs[..|rs| - 1]) + Item(rs[|rs| - 1])
  {
    if |rs| > 1 {
      TextSplits(rs[1..]);
      FinishedCons(rs[..|rs| - 1]);
      assert rs[1..][..|rs| - 2] == rs[..|rs| - 1][1..];
      assert rs[1..][|rs| - 2] == rs[|rs| - 1];
      Associative(Item(rs[0]) + [Comma], Finished(rs[..|rs| - 1][1..]), Item(rs[|rs| - 1]));
    }
  }

  lemma {:induction false} FinishedCons(rs: seq<Run>)
    requires rs != []
    ensures Finished(rs) == (Item(rs[0]) + [Comma]) + Finished(rs[1..])
  {
    if |rs| > 1 {
      FinishedCons(rs[..|rs| - 1]);
      assert rs[1..][..|rs| - 2] == rs[..|rs| - 1][1..];
      assert rs[1..][|rs| - 2] == rs[|rs| - 1];
      Associative(Item(rs[0]) + [Comma], Finished(rs[..|rs| - 1][1..]), Item(rs[|rs| - 1]) + [Comma]);
    } else {
      assert rs[1..] == [] && rs[..0] == [];
    }
  }

  // Writing.

  /** The value the writer starts from, as if the table were preceded by it. */
  const BOGUS := -20

  /** What the writer keeps of the finished runs: it forgets a single BOGUS. */
  function Kept(rs: seq<Run>): seq<Run> {
    if rs == [] then []
    else Kept(rs[..|rs| - 1]) + (if rs[|rs| - 1] == Run(BOGUS, 1) then [] else [rs[|rs| - 1]])
  }

  /** The items written for a table whose entries are `xs`. */
  function Items(xs: seq<int>): (ks: seq<Run>)
    ensures ks != []
  {
    ItemsOf(RunsOf([BOGUS] + xs))
  }

  function ItemsOf(rs: seq<Run>): (ks: seq<Run>)
    requires rs != []
    ensures ks != []
  {
    Kept(rs[..|rs| - 1]) + [rs[|rs| - 1]]
  }

  function Concat(chunks: seq<string>): string {
    if chunks == [] then [] else Concat(chunks[..|chunks| - 1]) + chunks[|chunks| - 1]
  }

  function Flatten(m: seq<seq<int>>): seq<int> {
    if m == [] then [] else Flatten(m[..|m| - 1]) + m[|m| - 1]
  }

  /** The writer when the runs so far, the leading BOGUS included, are `rs`. */
  ghost predicate Writing(rs: seq<Run>, text: Marks, previous: int, started: bool, length: nat) {
    && rs != [] && rs[|rs| - 1].count > 0
    && previous == rs[|rs| - 1].value
    && (started <==> rs[|rs| - 1].count > 1) && (started ==> length == rs[|rs| - 1].count)
    && text == Finished(Kept(rs[..|rs| - 1])) + (if started then [Num(previous), Colon] else [])
  }

  /** The writer's step for one entry. */
  function Step(x: int, previous: int, started: bool, length: nat): (Marks, bool, nat) {
    if x == previous then
      if started then ([], true, length + 1) else ([Num(x), Colon], true, 2)
    else if started then ([Num(length), Comma], false, 0)
    else (if previous != BOGUS then [Num(previous), Comma] else [], false, length)
  }

  lemma {:induction false} WritingStep(rs: seq<Run>, x: int, text: Marks, previous: int, started: bool, length: nat)
    requires Writing(rs, text, previous, started, length)
    ensures var (s, started', length') := Step(x, previous, started, length);
            Writing(AddRun(rs, x), text + s, x, started', length')
  {
    if x == previous {
      SameRun(rs, text, previous, started, length);
    } else {
      RunClosed(rs, text, previous, started, length);
      NewRun(rs, x);
    }
  }

  lemma {:induction false} SameRun(rs: seq<Run>, text: Marks, previous: int, started: bool, length: nat)
    requires Writing(rs, text, previous, started, length)
    ensures var (s, started', length') := Step(previous, previous, started, length);
            Writing(AddRun(rs, previous), text + s, previous, started', length')
  {
    var rs' := AddRun(rs, previous);
    assert rs'[..|rs'| - 1] == rs[..|rs| - 1];
    assert rs'[|rs'| - 1] == Run(previous, rs[|rs| - 1].count + 1);
    if started {
      assert text + [] == text;
    } else {
      assert text == Finished(Kept(rs[..|rs| - 1]));
    }
  }

  lemma {:induction false} NewRun(rs: seq<Run>, x: int)
    requires rs != [] && rs[|rs| - 1].value != x
    ensures var rs' := AddRun(rs, x); rs'[..|rs'| - 1] == rs && rs'[|rs'| - 1] == Run(x, 1)
  {}

  /** Closing the current run, unless it is a single BOGUS, completes its item. */
  lemma {:induction false} RunClosed(rs: seq<Run>, text: Marks, previous: int, started: bool, length: nat)
    requires Writing(rs, text, previous, started, length)
    ensures Finished(Kept(rs)) ==
            text + (if started then [Num(length), Comma] else if previous != BOGUS then [Num(previous), Comma] else [])
  {
    var last, kept := rs[|rs| - 1], Kept(rs[..|rs| - 1]);
    if last != Run(BOGUS, 1) {
      assert Kept(rs) == kept + [last];
      assert (kept + [last])[..|kept|] == kept;
      if started {
        assert Item(last) + [Comma] == [Num(previous), Colon] + [Num(length), Comma];
        Associative(Finished(kept), [Num(previous), Colon], [Num(length), Comma]);
      } else {
        assert text == Finished(kept);
      }
    } else {
      assert Kept(rs) == kept;
    }
  }

  lemma {:induction false} WritingEnds(rs: seq<Run>, text: Marks, previous: int, started: bool, length: nat)
    requires Writing(rs, text, previous, started, length)
    ensures text + [Num(if started then length else previous)] == Text(ItemsOf(rs))
  {
    var ks := ItemsOf(rs);
    TextSplits(ks);
    assert ks[..|ks| - 1] == Kept(rs[..|rs| - 1]);
    var last, f := rs[|rs| - 1], Finished(Kept(rs[..|rs| - 1]));
    assert ks[|ks| - 1] == last && Text(ks) == f + Item(last);
    LastItem(f, last, text, previous, started, length);
  }

  lemma {:induction false} LastItem(f: Marks, last: Run, text: Marks, previous: int, started: bool, length: nat)
    requires last.count > 0 && previous == last.value && (started <==> last.count > 1)
    requires started ==> length == last.count
    requires text == f + (if started then [Num(previous), Colon] else [])
    ensures text + [Num(if started then length else previous)] == f + Item(last)
  {
    if started {
      Associative(f, [Num(previous), Colon], [Num(length)]);
      assert [Num(previous), Colon] + [Num(length)] == Item(last);
    } else {
      assert text == f;
    }
  }

  lemma {:induction false} AllRuns(xs: seq<int>)
    ensures RunsOf([BOGUS]) == [Run(BOGUS, 1)]
    ensures AddRuns([Run(BOGUS, 1)], xs) == RunsOf([BOGUS] + xs)
  {
    assert [BOGUS][..0] == [];
    RunsConcat([BOGUS], xs);
  }

  class TableWriter {
    var chunks: seq<string>
    var out: string
    var previous: int
    var started: bool
    var length: nat
    /** The runs seen and the marks written so far. */
    ghost var runs: seq<Run>
    ghost var text: Marks

    ghost predicate Valid()
      reads this
    {
      && Concat(chunks) + out == Chars(text)
      && Writing(runs, text, previous, started, length)
      && forall k :: 0 <= k < |chunks| ==> |chunks[k]| == 75
    }

    constructor ()
      ensures Valid() && runs == [Run(BOGUS, 1)]
    {
      chunks, out, previous, started, length := [], [], BOGUS, false, 0;
      runs, text := [Run(BOGUS, 1)], [];
    }

    method Append(k: Mark)
      requires Concat(chunks) + out == Chars(text)
      modifies this`out, this`text
      ensures Concat(chunks) + out == Chars(text) && text == old(text) + [k]
    {
      var s := match k case Num(n) => Print(n) case Colon => ":" case Comma => ",";
      CharsConcat(text, [k]);
      assert Chars([k]) == s by { assert [k][1..] == []; }
      Associative(Concat(chunks), out, s);
      out := out + s;
      text := text + [k];
    }

    /** The branches of the inner loop. */
    method AppendTwo(k: Mark, l: Mark)
      requires Concat(chunks) + out == Chars(text)
      modifies this`out, this`text
      ensures Concat(chunks) + out == Chars(text) && text == old(text) + [k, l]
    {
      Append(k);
      Append(l);
      assert old(text) + [k] + [l] == old(text) + [k, l];
    }

    method Branch(x: int)
      requires Concat(chunks) + out == Chars(text)
      modifies this`out, this`text, this`started, this`length
      ensures Concat(chunks) + out == Chars(text)
      ensures var (s, started', length') := old(Step(x, previous, started, length));
              text == old(text) + s && started == started' && length == length'
    {
      if x == previous {
        if started {
          length := length + 1;
        } else {
          AppendTwo(Num(x), Colon);
          length := 2;
          started := true;
        }
      } else if started {
        AppendTwo(Num(length), Comma);
        length := 0;
        started := false;
      } else if previous != BOGUS {
        AppendTwo(Num(previous), Comma);
      }
    }

    /** The body of the inner loop. */
    method Entry(x: int)
      requires Valid()
      modifies this
      ensures Valid() && runs == AddRun(old(runs), x)
    {
      Continue(x);
      previous := x;
      runs := AddRun(runs, x);
      Flush();
    }

    /** The branches keep the text in step with the runs. */
    method Continue(x: int)
      requires Concat(chunks) + out == Chars(text) && Writing(runs, text, previous, started, length)
      modifies this`out, this`text, this`started, this`length
      ensures Concat(chunks) + out == Chars(text) && Writing(AddRun(runs, x), text, x, started, length)
    {
      WritingStep(runs, x, text, previous, started, length);
      Branch(x);
    }

    method Flush()
      requires Concat(chunks) + out == Chars(text) && forall k :: 0 <= k < |chunks| ==> |chunks[k]| == 75
      modifies this`chunks, this`out
      ensures Concat(chunks) + out == Chars(text) && forall k :: 0 <= k < |chunks| ==> |chunks[k]| == 75
    {
      if |out| > 75 {
        assert (chunks + [out[..75]])[..|chunks|] == chunks;
        Associative(Concat(chunks), out[..75], out[75..]);
        assert out == out[..75] + out[75..];
        chunks := chunks + [out[..75]];
        out := out[75..];
      }
    }

    method Row(row: seq<int>)
      requires Valid()
      modifies this
      ensures Valid() && runs == AddRuns(old(runs), row)
    {
      for i := 0 to |row|
        invariant Valid() && runs == AddRuns(old(runs), row[..i])
      {
        Entry(row[i]);
        AddRunsSnoc(old(runs), row, i);
      }
      assert row[..|row|] == row;
    }

    /** What follows the loops. */
    method Finish()
      requires Concat(chunks) + out == Chars(text) && forall k :: 0 <= k < |chunks| ==> |chunks[k]| == 75
      modifies this
      ensures Concat(chunks) == Chars(old(text) + [Num(if old(started) then old(length) else old(previous))])
      ensures forall k :: 0 <= k < |chunks| - 1 ==> |chunks[k]| == 75
    {
      Append(Num(if started then length else previous));
      Flush();
      assert (chunks + [out])[..|chunks|] == chunks;
      chunks := chunks + [out];
    }
  }

  /** emit_table_as_string: the text in chunks of 75 characters. */
  method EmitTableAsString(ia: seq<seq<int>>) returns (chunks: seq<string>)
    ensures Concat(chunks) == Chars(Text(Items(Flatten(ia))))
    ensures forall k :: 0 <= k < |chunks| - 1 ==> |chunks[k]| == 75
  {
    var w := new TableWriter();
    for r := 0 to |ia|
      invariant w.Valid() && w.runs == AddRuns([Run(BOGUS, 1)], Flatten(ia[..r]))
    {
      w.Row(ia[r]);
      AddRunsConcat([Run(BOGUS, 1)], Flatten(ia[..r]), ia[r]);
      assert ia[..r + 1][..r] == ia[..r];
    }
    assert ia[..|ia|] == ia;
    AllRuns(Flatten(ia));
    WritingEnds(w.runs, w.text, w.previous, w.started, w.length);
    w.Finish();
    chunks := w.chunks;
  }

  // Reading.

  /** String.indexOf. */
  function IndexOf(s: string, c: char): (i: int)
    ensures -1 <= i < |s|
    ensures i == -1 ==> c !in s
    ensures i >= 0 ==> s[i] == c && c !in s[..i]
  {
    if s == [] then -1
    else if s[0] == c then 0
    else
      var i := IndexOf(s[1..], c);
      assert i >= 0 ==> s[..i + 1] == [s[0]] + s[1..][..i];
      if i == -1 then -1 else i + 1
  }

  lemma {:induction false} FirstIndex(s: string, c: char, i: nat)
    requires i < |s| && s[i] == c && forall j :: 0 <= j < i ==> s[j] != c
    ensures IndexOf(s, c) == i
  {
    if i > 0 {
      FirstIndex(s[1..], c, i - 1);
    }
  }

  lemma {:induction false} FindsSeparator(a: string, c: char, b: string)
    requires c !in a
    ensures IndexOf(a + [c] + b, c) == |a|
  {
    var s := a + [c] + b;
    assert s[|a|] == c;
    FirstIndex(s, c, |a|);
  }

  lemma {:induction false} NotFound(a: string, c: char)
    requires c !in a
    ensures IndexOf(a, c) == -1
  {}

  lemma {:induction false} ItemChars(r: Run)
    ensures Chars(Item(r)) == if r.count == 1 then Print(r.value) else Print(r.value) + ":" + Print(r.count)
    ensures ',' !in Chars(Item(r))
  {
    if r.count == 1 {
      assert Item(r)[1..] == [];
    } else {
      var ms := Item(r);
      assert ms[1..][1..] == [Num(r.count)] && [Num(r.count)][1..] == [];
      assert Chars(ms[1..][1..]) == Print(r.count);
      assert Chars(ms[1..]) == ":" + Print(r.count);
      Associative(Print(r.value), ":", Print(r.count));
    }
  }

  lemma {:induction false} TextChars(items: seq<Run>)
    requires |items| > 1
    ensures Chars(Text(items)) == Chars(Item(items[0])) + [','] + Chars(Text(items[1..]))
  {
    CharsConcat(Item(items[0]) + [Comma], Text(items[1..]));
    CharsConcat(Item(items[0]), [Comma]);
    assert Chars([Comma]) == [','] by { assert [Comma][1..] == []; }
  }

  /** What is left after one item; the last item is never consumed. */
  function Rest(items: seq<Run>): (r: seq<Run>)
    requires items != []
    ensures r != []
  {
    if |items| > 1 then items[1..] else items
  }

  /** The part of unpackFromString that reads one item. */
  method ReadItem(st: string, ghost items: seq<Run>) returns (value: int, count: int, st': string)
    requires items != [] && st == Chars(Text(items))
    ensures value == items[0].value && count == items[0].count && st' == Chars(Text(Rest(items)))
  {
    ghost var item := Chars(Item(items[0]));
    ItemChars(items[0]);
    if |items| > 1 {
      TextChars(items);
      FindsSeparator(item, ',', Chars(Text(items[1..])));
    } else {
      NotFound(item, ',');
    }
    var comma := IndexOf(st, ',');
    var work := if comma == -1 then st else st[..comma];
    st' := st[comma + 1..];
    assert work == item;
    value, count := ParseItem(work, items[0]);
  }

  method ParseItem(work: string, ghost r: Run) returns (value: int, count: int)
    requires work == Chars(Item(r))
    ensures value == r.value && count == r.count
  {
    ItemChars(r);
    ParseOfPrint(r.value);
    ParseOfPrint(r.count);
    if r.count == 1 {
      NotFound(work, ':');
    } else {
      FindsSeparator(Print(r.value), ':', Print(r.count));
    }
    var colon := IndexOf(work, ':');
    if colon == -1 {
      return Parse(work), 1;
    }
    assert work[..colon] == Print(r.value) && work[colon + 1..] == Print(r.count);
    count := Parse(work[colon + 1..]);
    value := Parse(work[..colon]);
  }

  /** Entry number `p` of the stream of items, the last item repeating forever. */
  function At(items: seq<Run>, p: nat): int
    requires items != []
    decreases |items|
  {
    if |items| == 1 || p < items[0].count then items[0].value else At(items[1..], p - items[0].count)
  }

  /** The next entries: `length` more of `value`, then the items. */
  function Ahead(value: int, length: nat, items: seq<Run>, p: nat): int
    requires items != []
  {
    if p < length then value else At(items, p - length)
  }

  ghost predicate Counted(items: seq<Run>) {
    forall k :: 0 <= k < |items| ==> items[k].count > 0
  }

  lemma {:induction false} AheadReads(value: int, items: seq<Run>, p: nat)
    requires items != [] && Counted(items)
    ensures Ahead(value, 0, items, 0) == items[0].value
    ensures Ahead(value, 0, items, p + 1) == Ahead(items[0].value, items[0].count - 1, Rest(items), p)
  {}

  /** From here on come entries `n`, `n + 1`, ... of the stream. */
  ghost predicate Delivers(all: seq<Run>, n: nat, value: int, length: nat, items: seq<Run>)
    requires all != [] && items != []
  {
    forall p: nat :: Ahead(value, length, items, p) == At(all, n + p)
  }

  lemma {:induction false} AheadShifts(all: seq<Run>, n: nat, value: int, length: nat, items: seq<Run>)
    requires all != [] && items != [] && Counted(items) && Delivers(all, n, value, length, items)
    ensures At(all, n) == if length > 0 then value else items[0].value
    ensures length > 0 ==> Delivers(all, n + 1, value, length - 1, items)
    ensures length == 0 ==> Delivers(all, n + 1, items[0].value, items[0].count - 1, Rest(items))
  {
    assert Ahead(value, length, items, 0) == At(all, n + 0);
    var v, l, rest := if length > 0 then value else items[0].value,
                      if length > 0 then length - 1 else items[0].count - 1,
                      if length > 0 then items else Rest(items);
    forall p: nat ensures Ahead(v, l, rest, p) == At(all, n + 1 + p) {
      assert Ahead(value, length, items, p + 1) == At(all, n + (p + 1));
      assert n + (p + 1) == n + 1 + p;
      if length == 0 {
        AheadReads(value, items, p);
      }
    }
  }

  class TableReader {
    var st: string
    var sequenceLength: nat
    var sequenceInteger: int
    /** All items, those not read yet, and how many entries have been delivered. */
    ghost const all: seq<Run>
    ghost var items: seq<Run>
    ghost var taken: nat

    ghost predicate Valid()
      reads this
    {
      && all != [] && items != [] && Counted(items) && st == Chars(Text(items))
      && Delivers(all, taken, sequenceInteger, sequenceLength, items)
    }

    constructor (st: string, ghost items: seq<Run>)
      requires items != [] && Counted(items) && st == Chars(Text(items))
      ensures Valid() && all == items && taken == 0
    {
      this.st, this.items, all, taken, sequenceLength, sequenceInteger := st, items, items, 0, 0, 0;
    }

    /** The body of the inner loop: one entry of the table. */
    method ReadEntry() returns (x: int)
      requires Valid()
      modifies this
      ensures Valid() && taken == old(taken) + 1 && x == At(all, old(taken))
    {
      AheadShifts(all, taken, sequenceInteger, sequenceLength, items);
      taken := taken + 1;
      if sequenceLength != 0 {
        x := sequenceInteger;
        sequenceLength := sequenceLength - 1;
        return;
      }
      var count;
      x, count, st := ReadItem(st, items);
      sequenceInteger, sequenceLength := x, count - 1;
      items := Rest(items);
    }

    method ReadRow(size: nat) returns (row: seq<int>)
      requires Valid()
      modifies this
      ensures Valid() && taken == old(taken) + size && |row| == size
      ensures forall j :: 0 <= j < size ==> row[j] == At(all, old(taken) + j)
    {
      row := [];
      for j := 0 to size
        invariant Valid() && taken == old(taken) + j && |row| == j
        invariant forall q :: 0 <= q < j ==> row[q] == At(all, old(taken) + q)
      {
        var x := ReadEntry();
        row := row + [x];
      }
    }
  }

  ghost predicate Decodes(items: seq<Run>, xs: seq<int>)
    requires items != []
  {
    forall p :: 0 <= p < |xs| ==> xs[p] == At(items, p)
  }

  lemma {:induction false} FlattenSnoc(m: seq<seq<int>>, row: seq<int>)
    ensures Flatten(m + [row]) == Flatten(m) + row
  {
    assert (m + [row])[..|m|] == m;
  }

  /** unpackFromString. */
  method UnpackFromString(size1: nat, size2: nat, st: string, ghost items: seq<Run>) returns (res: seq<seq<int>>)
    requires items != [] && Counted(items) && st == Chars(Text(items))
    ensures |res| == size1 && forall i :: 0 <= i < size1 ==> |res[i]| == size2
    ensures Decodes(items, Flatten(res))
  {
    var reader := new TableReader(st, items);
    res := [];
    for i := 0 to size1
      invariant |res| == i && forall k :: 0 <= k < i ==> |res[k]| == size2
      invariant reader.Valid() && reader.all == items && reader.taken == |Flatten(res)| && Decodes(items, Flatten(res))
    {
      var row := reader.ReadRow(size2);
      FlattenSnoc(res, row);
      res := res + [row];
    }
  }
}
