/** SparseBitSet: a set of integers as sorted, numbered blocks of 64 flags.  A block
    (a Java long) is modelled by the set of its one bits. */
module SparseBits {
  const BITS: nat := 64

  type Block = b: set<nat> | forall k :: k in b ==> k < BITS

  ghost predicate Ascending(offs: seq<int>) {
    forall i, j :: 0 <= i < j < |offs| ==> offs[i] < offs[j]
  }

  /** The flags of block number `k`; a block that is not stored is empty. */
  ghost function BlockOf(offs: seq<int>, bits: seq<Block>, k: int): Block
    requires |offs| == |bits|
  {
    if offs == [] then {}
    else if offs[|offs| - 1] == k then bits[|bits| - 1]
    else BlockOf(offs[..|offs| - 1], bits[..|bits| - 1], k)
  }

  lemma {:induction false} BlockAt(offs: seq<int>, bits: seq<Block>, i: nat)
    requires |offs| == |bits| && Ascending(offs) && i < |offs|
    ensures BlockOf(offs, bits, offs[i]) == bits[i]
    decreases |offs|
  {
    if i < |offs| - 1 {
      BlockAt(offs[..|offs| - 1], bits[..|bits| - 1], i);
    }
  }

  lemma {:induction false} BlockAbsent(offs: seq<int>, bits: seq<Block>, k: int)
    requires |offs| == |bits| && k !in offs
    ensures BlockOf(offs, bits, k) == {}
  {
    if offs != [] {
      BlockAbsent(offs[..|offs| - 1], bits[..|bits| - 1], k);
    }
  }

  /** Two stores of the same blocks. */
  ghost predicate SameBlocks(offs: seq<int>, bits: seq<Block>, offs': seq<int>, bits': seq<Block>)
    requires |offs| == |bits| && |offs'| == |bits'|
  {
    forall k :: BlockOf(offs, bits, k) == BlockOf(offs', bits', k)
  }

  datatype Op = And | Or | Xor {
    function Apply(a: Block, b: Block): Block {
      match this
      case And => a * b
      case Or => a + b
      case Xor => (a - b) + (b - a)
    }
  }

  // The merge of two stores, one key at a time.

  /** After `i` blocks of the first and `j` of the second store: the output holds the
      combination of what has been read; numbers up to `top` are done, larger ones are not. */
  ghost predicate Merging(ao: seq<int>, ab: seq<Block>, bo: seq<int>, bb: seq<Block>, op: Op,
                          i: nat, j: nat, outO: seq<int>, outB: seq<Block>, top: int)
  {
    && |ao| == |ab| && |bo| == |bb| && |outO| == |outB|
    && Frontier(ao, i, top) && Frontier(bo, j, top) && Frontier(outO, |outO|, top)
    && (forall p :: 0 <= p < |outB| ==> outB[p] != {})
    && Combines(ao[..i], ab[..i], bo[..j], bb[..j], op, outO, outB)
  }

  /** The first `i` numbers are at most `top`, the others larger. */
  ghost predicate Frontier(offs: seq<int>, i: nat, top: int) {
    && Ascending(offs) && i <= |offs|
    && (forall p :: 0 <= p < i ==> offs[p] <= top)
    && (forall p :: i <= p < |offs| ==> offs[p] > top)
  }

  ghost predicate Combines(ao: seq<int>, ab: seq<Block>, bo: seq<int>, bb: seq<Block>, op: Op, outO: seq<int>,
                           outB: seq<Block>)
    requires |ao| == |ab| && |bo| == |bb| && |outO| == |outB|
  {
    forall k :: BlockOf(outO, outB, k) == op.Apply(BlockOf(ao, ab, k), BlockOf(bo, bb, k))
  }

  /** The key to be handled next. */
  function NextKey(ao: seq<int>, bo: seq<int>, i: nat, j: nat): int
    requires i <= |ao| && j <= |bo| && (i < |ao| || j < |bo|)
  {
    if i < |ao| && (j >= |bo| || ao[i] <= bo[j]) then ao[i] else bo[j]
  }

  /** Does the step consume a block of the first (second) store? */
  predicate TakesFirst(ao: seq<int>, bo: seq<int>, i: nat, j: nat)
    requires i <= |ao| && j <= |bo|
  {
    i < |ao| && (j >= |bo| || ao[i] <= bo[j])
  }

  predicate TakesSecond(ao: seq<int>, bo: seq<int>, i: nat, j: nat)
    requires i <= |ao| && j <= |bo|
  {
    j < |bo| && (i >= |ao| || bo[j] <= ao[i])
  }

  lemma {:induction false} BlockSnoc(offs: seq<int>, bits: seq<Block>, i: nat, k: int)
    requires |offs| == |bits| && i < |offs|
    ensures BlockOf(offs[..i + 1], bits[..i + 1], k) == if offs[i] == k then bits[i]
              else BlockOf(offs[..i], bits[..i], k)
  {
    assert offs[..i + 1][..i] == offs[..i] && bits[..i + 1][..i] == bits[..i];
  }

  lemma {:induction false} BlockNew(offs: seq<int>, bits: seq<Block>, i: nat)
    requires |offs| == |bits| && i < |offs| && Ascending(offs)
    ensures BlockOf(offs[..i], bits[..i], offs[i]) == {}
  {
    assert offs[i] !in offs[..i];
    BlockAbsent(offs[..i], bits[..i], offs[i]);
  }

  function Append<T>(s: seq<T>, x: T, keep: bool): seq<T> {
    if keep then s + [x] else s
  }

  /** One step of the merge keeps the invariant. */
  lemma {:induction false} MergeStep(ao: seq<int>, ab: seq<Block>, bo: seq<int>, bb: seq<Block>, op: Op, i: nat, j: nat,
                                     outO: seq<int>, outB: seq<Block>, top: int, nb: Block,
                                     i': nat, j': nat, outO': seq<int>, outB': seq<Block>, key: int)
    requires Merging(ao, ab, bo, bb, op, i, j, outO, outB, top) && (i < |ao| || j < |bo|)
    requires nb == op.Apply(if TakesFirst(ao, bo, i, j) then ab[i] else {}, if TakesSecond(ao, bo, i, j)
               then bb[j] else {})
    requires i' == (if TakesFirst(ao, bo, i, j) then i + 1 else i)
    requires j' == (if TakesSecond(ao, bo, i, j) then j + 1 else j)
    requires key == NextKey(ao, bo, i, j)
    requires outO' == Append(outO, key, nb != {}) && outB' == Append(outB, nb, nb != {})
    ensures Merging(ao, ab, bo, bb, op, i', j', outO', outB', key)
  {
    FrontierStep(ao, i, i', top, key);
    FrontierStep(bo, j, j', top, key);
    forall k ensures BlockOf(outO', outB', k) ==
                     op.Apply(BlockOf(ao[..i'], ab[..i'], k), BlockOf(bo[..j'], bb[..j'], k))
    {
      assert BlockOf(outO, outB, k) == op.Apply(BlockOf(ao[..i], ab[..i], k), BlockOf(bo[..j], bb[..j], k));
      StepBlock(ao, ab, i, i', top, key, k);
      StepBlock(bo, bb, j, j', top, key, k);
      OutBlock(outO, outB, top, key, nb, k);
    }
  }

  lemma {:induction false} FrontierStep(offs: seq<int>, i: nat, i': nat, top: int, key: int)
    requires Frontier(offs, i, top) && key > top && i <= i' <= i + 1 && i' <= |offs|
    requires i' == i + 1 ==> offs[i] == key
    requires i' == i && i < |offs| ==> offs[i] > key
    ensures Frontier(offs, i', key)
  {}

  /** Reading the block with the next key adds that key and nothing else. */
  lemma {:induction false} StepBlock(offs: seq<int>, bits: seq<Block>, i: nat, i': nat, top: int, key: int, k: int)
    requires |offs| == |bits| && Frontier(offs, i, top) && key > top
    requires i <= i' <= i + 1 && i' <= |offs| && (i' == i + 1 ==> offs[i] == key)
    ensures BlockOf(offs[..i'], bits[..i'], k) ==
            if k == key then (if i' == i + 1 then bits[i] else {}) else BlockOf(offs[..i], bits[..i], k)
  {
    if i' == i + 1 {
      BlockSnoc(offs, bits, i, k);
    }
    if k == key && i' == i {
      assert key !in offs[..i];
      BlockAbsent(offs[..i], bits[..i], key);
    }
  }

  lemma {:induction false} OutBlock(outO: seq<int>, outB: seq<Block>, top: int, key: int, nb: Block, k: int)
    requires |outO| == |outB| && Frontier(outO, |outO|, top) && key > top
    ensures BlockOf(Append(outO, key, nb != {}), Append(outB, nb, nb != {}), k) ==
            if k == key then nb else BlockOf(outO, outB, k)
  {
    if nb == {} {
      if k == key {
        assert key !in outO;
        BlockAbsent(outO, outB, key);
      }
    } else {
      assert (outO + [key])[..|outO|] == outO && (outB + [nb])[..|outB|] == outB;
    }
  }

  /** A new empty block changes nothing. */
  lemma {:induction false} InsertedBlocks(offs: seq<int>, bits: seq<Block>, i: nat, bnum: int)
    requires |offs| == |bits| && Ascending(offs) && i <= |offs|
    requires (forall p :: 0 <= p < i ==> offs[p] < bnum) && (forall p :: i <= p < |offs| ==> bnum < offs[p])
    ensures Ascending(offs[..i] + [bnum] + offs[i..])
    ensures SameBlocks(offs[..i] + [bnum] + offs[i..], bits[..i] + [{}] + bits[i..], offs, bits)
  {
    forall k: int ensures BlockOf(offs[..i] + [bnum] + offs[i..], bits[..i] + [{}] + bits[i..], k) ==
        BlockOf(offs, bits, k) {
      InsertedBlock(offs, bits, i, bnum, k);
    }
  }

  lemma {:induction false} InsertedBlock(offs: seq<int>, bits: seq<Block>, i: nat, bnum: int, k: int)
    requires |offs| == |bits| && Ascending(offs) && i <= |offs| && bnum !in offs
    requires Ascending(offs[..i] + [bnum] + offs[i..])
    ensures BlockOf(offs[..i] + [bnum] + offs[i..], bits[..i] + [{}] + bits[i..], k) == BlockOf(offs, bits, k)
  {
    var offs', bits' := offs[..i] + [bnum] + offs[i..], bits[..i] + [{}] + bits[i..];
    if k in offs {
      var p :| 0 <= p < |offs| && offs[p] == k;
      BlockAt(offs, bits, p);
      BlockAt(offs', bits', if p < i then p else p + 1);
    } else {
      BlockAbsent(offs, bits, k);
      if k == bnum {
        BlockAt(offs', bits', i);
      } else {
        BlockAbsent(offs', bits', k);
      }
    }
  }

  lemma {:induction false} UpdatedBlocks(offs: seq<int>, bits: seq<Block>, i: nat, bits': seq<Block>)
    requires |offs| == |bits| && Ascending(offs) && i < |offs| == |bits'| && bits' == bits[i := bits'[i]]
    ensures forall k :: BlockOf(offs, bits', k) == if k == offs[i] then bits'[i] else BlockOf(offs, bits, k)
  {
    forall k: int ensures BlockOf(offs, bits', k) == if k == offs[i] then bits'[i] else BlockOf(offs, bits, k) {
      UpdatedBlock(offs, bits, i, bits'[i], k);
    }
  }

  lemma {:induction false} UpdatedBlock(offs: seq<int>, bits: seq<Block>, i: nat, nb: Block, k: int)
    requires |offs| == |bits| && Ascending(offs) && i < |offs|
    ensures BlockOf(offs, bits[i := nb], k) == if k == offs[i] then nb else BlockOf(offs, bits, k)
  {
    if k in offs {
      var p :| 0 <= p < |offs| && offs[p] == k;
      BlockAt(offs, bits, p);
      BlockAt(offs, bits[i := nb], p);
      BlockAt(offs, bits[i := nb], i);
    } else {
      BlockAbsent(offs, bits, k);
      BlockAbsent(offs, bits[i := nb], k);
    }
  }

  /** The unread part of a store held in two arrays from position `zero` on. */
  ghost predicate Unread(o: array<int>, b: array<Block>, zero: nat, i: nat, offs: seq<int>, bits: seq<Block>)
    reads o, b
  {
    && |offs| == |bits| && zero <= i && zero + |offs| <= o.Length && zero + |offs| <= b.Length
    && (forall p :: i <= p < zero + |offs| ==> o[p] == offs[p - zero])
    && (forall p :: i <= p < zero + |offs| ==> b[p] == bits[p - zero])
  }

  /** The three branches of the loop of binop: the next block number, the combined block,
      and how far both stores have been read. */
  method Pick(srcO: array<int>, srcB: array<Block>, zero: nat, bO: array<int>, bB: array<Block>, op: Op, i: nat, j: nat,
              asize: nat, bsize: nat,
              ghost ao: seq<int>, ghost ab: seq<Block>, ghost bo: seq<int>, ghost bb: seq<Block>,
              ghost o: seq<int>, ghost b: seq<Block>, ghost top: int)
      returns (nb: Block, no: int, i': nat, j': nat)
    requires |ao| == asize && |bo| == bsize && zero <= i <= zero + asize && j <= bsize
    requires (i < zero + asize || j < bsize)
    requires Unread(srcO, srcB, zero, i, ao, ab) && Unread(bO, bB, 0, j, bo, bb)
    requires Merging(ao, ab, bo, bb, op, i - zero, j, o, b, top)
    ensures i <= i' <= zero + asize && j <= j' <= bsize && (i < i' || j < j')
    ensures ao == bo && i - zero == j ==> i' - zero == j'
    ensures Merging(ao, ab, bo, bb, op, i' - zero, j', Append(o, no, nb != {}), Append(b, nb, nb != {}), no)
  {
    i', j' := i, j;
    if i < zero + asize && (j >= bsize || srcO[i] < bO[j]) {
      nb := op.Apply(srcB[i], {});
      no := srcO[i];
      i' := i + 1;
    } else if j < bsize && (i >= zero + asize || srcO[i] > bO[j]) {
      nb := op.Apply({}, bB[j]);
      no := bO[j];
      j' := j + 1;
    } else {
      nb := op.Apply(srcB[i], bB[j]);
      no := srcO[i];
      i' := i + 1;
      j' := j + 1;
    }
    MergeStep(ao, ab, bo, bb, op, i - zero, j, o, b, top, nb, i' - zero, j', Append(o, no, nb != {}),
        Append(b, nb, nb != {}), no);
  }

  /** Appends a block, unless it is empty, to the output without touching what is still to be read. */
  method Put(outO: array<int>, outB: array<Block>, n: nat, no: int, nb: Block,
             ghost srcO: array<int>, ghost srcB: array<Block>, ghost zero: nat, ghost i: nat,
             ghost bO: array<int>, ghost bB: array<Block>, ghost j: nat,
             ghost ao: seq<int>, ghost ab: seq<Block>, ghost bo: seq<int>, ghost bb: seq<Block>)
      returns (n': nat)
    requires n < outO.Length == outB.Length
    requires Unread(srcO, srcB, zero, i, ao, ab) && Unread(bO, bB, 0, j, bo, bb)
    requires (outO == srcO <==> outB == srcB) && (outO == srcO ==> n < i)
    requires (outO == bO <==> outB == bB) && (outO == bO ==> n < j)
    modifies outO, outB
    ensures n' == (if nb == {} then n else n + 1)
    ensures outO[..n'] == Append(old(outO[..n]), no, nb != {}) && outB[..n'] == Append(old(outB[..n]), nb, nb != {})
    ensures Unread(srcO, srcB, zero, i, ao, ab) && Unread(bO, bB, 0, j, bo, bb)
  {
    n' := n;
    if nb != {} {
      outB[n] := nb;
      outO[n] := no;
      n' := n + 1;
    }
  }

  /** One round of binop's loop. */
  method CrunchOne(srcO: array<int>, srcB: array<Block>, zero: nat, bO: array<int>, bB: array<Block>, op: Op,
                   outO: array<int>, outB: array<Block>,
                   n: nat, i: nat, j: nat, asize: nat, bsize: nat,
                   ghost ao: seq<int>, ghost ab: seq<Block>, ghost bo: seq<int>, ghost bb: seq<Block>, ghost top: int)
      returns (n': nat, i': nat, j': nat, ghost top': int)
    requires |ao| == asize && |bo| == bsize && zero <= i <= zero + asize && j <= bsize
    requires (i < zero + asize || j < bsize)
    requires asize + bsize <= outO.Length == outB.Length && n <= i - zero + j
    requires (outO == srcO <==> outB == srcB) && (outO == srcO ==> bsize <= zero)
    requires (outO == bO <==> outB == bB) && (outO == bO ==> outO == srcO && ao == bo && n <= j == i - zero)
    requires Merging(ao, ab, bo, bb, op, i - zero, j, outO[..n], outB[..n], top)
    requires Unread(srcO, srcB, zero, i, ao, ab) && Unread(bO, bB, 0, j, bo, bb)
    modifies outO, outB
    ensures i <= i' <= zero + asize && j <= j' <= bsize && (i < i' || j < j')
    ensures n' <= i' - zero + j' && (outO == bO ==> n' <= j' == i' - zero)
    ensures Merging(ao, ab, bo, bb, op, i' - zero, j', outO[..n'], outB[..n'], top')
    ensures Unread(srcO, srcB, zero, i', ao, ab) && Unread(bO, bB, 0, j', bo, bb)
  {
    var nb, no;
    nb, no, i', j' := Pick(srcO, srcB, zero, bO, bB, op, i, j, asize, bsize, ao, ab, bo, bb, outO[..n], outB[..n], top);
    n' := Put(outO, outB, n, no, nb, srcO, srcB, zero, i', bO, bB, j', ao, ab, bo, bb);
    top' := no;
  }

  /** The main loop of binop.  The output may go into the front of the first store's own
      arrays: it never catches up with what is still to be read. */
  method Crunch(srcO: array<int>, srcB: array<Block>, zero: nat, bO: array<int>, bB: array<Block>, op: Op,
                outO: array<int>, outB: array<Block>,
                ghost ao: seq<int>, ghost ab: seq<Block>, ghost bo: seq<int>, ghost bb: seq<Block>, asize: nat,
                bsize: nat)
      returns (n: nat)
    requires |ao| == asize && |bo| == bsize && Ascending(ao) && Ascending(bo)
    requires Unread(srcO, srcB, zero, zero, ao, ab) && Unread(bO, bB, 0, 0, bo, bb)
    requires outO.Length == outB.Length && asize + bsize <= outO.Length
    requires (outO == srcO <==> outB == srcB) && (outO == srcO ==> bsize <= zero)
    requires (outO == bO <==> outB == bB) && (outO == bO ==> outO == srcO && ao == bo)
    modifies outO, outB
    ensures n <= outO.Length && Ascending(outO[..n]) && (forall p :: 0 <= p < n ==> outB[p] != {})
    ensures Combines(ao, ab, bo, bb, op, outO[..n], outB[..n])
  {
    n := 0;
    var i, j := zero, 0;
    ghost var top := if ao == [] && bo == [] then 0 else NextKey(ao, bo, 0, 0) - 1;
    MergeStarts(ao, ab, bo, bb, op, outO[..0], outB[..0], top);
    while i < zero + asize || j < bsize
      invariant zero <= i <= zero + asize && 0 <= j <= bsize && n <= i - zero + j
      invariant Merging(ao, ab, bo, bb, op, i - zero, j, outO[..n], outB[..n], top)
      invariant Unread(srcO, srcB, zero, i, ao, ab) && Unread(bO, bB, 0, j, bo, bb)
      invariant outO == bO ==> n <= j == i - zero
      decreases zero + asize - i + bsize - j
    {
      n, i, j, top := CrunchOne(srcO, srcB, zero, bO, bB, op, outO, outB, n, i, j, asize, bsize, ao, ab, bo, bb, top);
    }
    MergeEnds(ao, ab, bo, bb, op, outO[..n], outB[..n], top);
  }

  lemma {:induction false} MergeStarts(ao: seq<int>, ab: seq<Block>, bo: seq<int>, bb: seq<Block>, op: Op, o: seq<int>,
                                       b: seq<Block>, top: int)
    requires |ao| == |ab| && |bo| == |bb| && Ascending(ao) && Ascending(bo) && o == [] && b == []
    requires ao != [] || bo != [] ==> top == NextKey(ao, bo, 0, 0) - 1
    ensures Merging(ao, ab, bo, bb, op, 0, 0, o, b, top)
  {}

  lemma {:induction false} MergeEnds(ao: seq<int>, ab: seq<Block>, bo: seq<int>, bb: seq<Block>, op: Op, o: seq<int>,
                                     b: seq<Block>, top: int)
    requires Merging(ao, ab, bo, bb, op, |ao|, |bo|, o, b, top)
    ensures Combines(ao, ab, bo, bb, op, o, b) && Ascending(o) && forall p :: 0 <= p < |b| ==> b[p] != {}
  {
    assert ao[..|ao|] == ao && ab[..|ab|] == ab && bo[..|bo|] == bo && bb[..|bb|] == bb;
  }

  /** A larger array with the same elements in front. */
  method Copy<T>(a: array<T>, n: nat, fill: T) returns (r: array<T>)
    requires a.Length <= n
    ensures fresh(r) && r.Length == n && r[..a.Length] == a[..]
  {
    r := new T[n](_ => fill);
    forall i | 0 <= i < a.Length { r[i] := a[i]; }
  }

  /** The arraycopy that shifts the elements from `idx` on, and the new element put there. */
  method Insert<T>(a: array<T>, n: nat, idx: nat, x: T)
    requires idx <= n < a.Length
    modifies a
    ensures a[..n + 1] == old(a[..n])[..idx] + [x] + old(a[..n])[idx..] && a[idx] == x
  {
    forall i | idx <= i < n { a[i + 1] := a[i]; }
    a[idx] := x;
  }

  class SparseBitSet {
    var offs: array<int>
    var bits: array<Block>
    var size: nat

    ghost predicate Valid()
      reads this, offs, bits
    {
      && offs.Length == bits.Length && offs.Length > 0 && size <= offs.Length
      && Ascending(offs[..size])
    }

    /** The flags of block `k`. */
    ghost function Flags(k: int): Block
      requires Valid()
      reads this, offs, bits
    {
      BlockOf(offs[..size], bits[..size], k)
    }

    /** Is `x` in the set? */
    ghost predicate Has(x: int)
      requires Valid()
      reads this, offs, bits
    {
      x % BITS in Flags(x / BITS)
    }

    constructor ()
      ensures Valid() && fresh(offs) && fresh(bits) && forall x: int :: !Has(x)
    {
      bits := new Block[4](_ => {});
      offs := new int[4](_ => 0);
      size := 0;
    }

    /** bsearch: where block `bnum` is, or should be. */
    method BSearch(bnum: int) returns (l: nat)
      requires Valid()
      ensures l <= size
      ensures forall i :: 0 <= i < l ==> offs[i] < bnum
      ensures forall i :: l <= i < size ==> bnum <= offs[i]
    {
      l := 0;
      var r := size;
      while l < r
        invariant 0 <= l <= r <= size
        invariant forall i :: 0 <= i < l ==> offs[i] < bnum
        invariant forall i :: r <= i < size ==> bnum <= offs[i]
      {
        var p := (l + r) / 2;
        Sorted();
        if bnum < offs[p] {
          r := p;
        } else if bnum > offs[p] {
          l := p + 1;
        } else {
          return p;
        }
      }
    }

    lemma {:induction false} Sorted()
      requires Valid()
      ensures forall i, j :: 0 <= i < j < size ==> offs[i] < offs[j]
    {
      forall i, j | 0 <= i < j < size ensures offs[i] < offs[j] {
        assert offs[..size][i] < offs[..size][j];
      }
    }

    /** Block `bnum` is stored at `i`, or nowhere. */
    lemma {:induction false} Found(bnum: int, i: nat)
      requires Valid() && i <= size
      requires forall p :: 0 <= p < i ==> offs[p] < bnum
      requires forall p :: i <= p < size ==> bnum <= offs[p]
      ensures Flags(bnum) == if i < size && offs[i] == bnum then bits[i] else {}
    {
      Sorted();
      if i < size && offs[i] == bnum {
        BlockAt(offs[..size], bits[..size], i);
      } else {
        assert bnum !in offs[..size];
        BlockAbsent(offs[..size], bits[..size], bnum);
      }
    }

    /** get. */
    method Get(bit: int) returns (r: bool)
      requires Valid()
      ensures r == Has(bit)
    {
      var bnum := bit / BITS;
      var idx := BSearch(bnum);
      Found(bnum, idx);
      if idx >= size || offs[idx] != bnum {
        return false;
      }
      return bit % BITS in bits[idx];
    }

    /** insert_block: room for block `bnum` at `idx`. */
    method InsertBlock(idx: nat, bnum: int)
      requires Valid() && idx <= size < offs.Length
      requires (forall p :: 0 <= p < idx ==> offs[p] < bnum) && (forall p :: idx <= p < size ==> bnum < offs[p])
      modifies this`size, offs, bits
      ensures Valid() && size == old(size) + 1 && idx < size && offs[idx] == bnum && bits[idx] == {}
      ensures forall k :: Flags(k) == old(Flags(k))
    {
      ghost var o, b := offs[..size], bits[..size];
      Insert(bits, size, idx, {});
      Insert(offs, size, idx, bnum);
      size := size + 1;
      InsertedBlocks(o, b, idx, bnum);
      assert o == old(offs[..size]) && b == old(bits[..size]);
    }

    /** new_block: grow if the arrays are full, then insert. */
    method NewBlock(idx: nat, bnum: int)
      requires Valid() && idx <= size
      requires (forall p :: 0 <= p < idx ==> offs[p] < bnum) && (forall p :: idx <= p < size ==> bnum < offs[p])
      modifies this, offs, bits
      ensures Valid() && size == old(size) + 1 && idx < size && offs[idx] == bnum && bits[idx] == {}
      ensures (offs == old(offs) && bits == old(bits)) || (fresh(offs) && fresh(bits))
      ensures forall k :: Flags(k) == old(Flags(k))
    {
      if size == bits.Length {
        Grow();
      }
      assert forall p :: 0 <= p < size ==> offs[..size][p] == offs[p];
      InsertBlock(idx, bnum);
    }

    /** Three times the space, the same blocks. */
    method Grow()
      requires Valid() && size == bits.Length
      modifies this`offs, this`bits
      ensures Valid() && fresh(offs) && fresh(bits) && size < offs.Length == 3 * size
      ensures offs[..size] == old(offs[..size]) && bits[..size] == old(bits[..size])
    {
      bits := Copy(bits, size * 3, {});
      offs := Copy(offs, size * 3, 0);
    }

    /** Finds the block of `bit`, creating it if necessary. */
    method Locate(bit: int) returns (idx: nat)
      requires Valid()
      modifies this, offs, bits
      ensures Valid() && idx < size && offs[idx] == bit / BITS && bits[idx] == Flags(bit / BITS)
      ensures (offs == old(offs) && bits == old(bits)) || (fresh(offs) && fresh(bits))
      ensures forall k :: Flags(k) == old(Flags(k))
    {
      var bnum := bit / BITS;
      idx := BSearch(bnum);
      Found(bnum, idx);
      Sorted();
      if idx >= size || offs[idx] != bnum {
        NewBlock(idx, bnum);
      }
    }

    method Store(idx: nat, nb: Block)
      requires Valid() && idx < size
      modifies bits
      ensures Valid() && forall k :: Flags(k) == if k == offs[idx] then nb else old(Flags(k))
    {
      ghost var o, b := offs[..size], bits[..size];
      bits[idx] := nb;
      UpdatedBlocks(o, b, idx, bits[..size]);
    }

    /** set. */
    method Set(bit: int)
      requires Valid()
      modifies this, offs, bits
      ensures Valid() && ((offs == old(offs) && bits == old(bits)) || (fresh(offs) && fresh(bits)))
      ensures forall x: int :: Has(x) <==> x == bit || old(Has(x))
    {
      var idx := Locate(bit);
      Store(idx, bits[idx] + {bit % BITS});
    }

    /** clear. */
    method Clear(bit: int)
      requires Valid()
      modifies this, offs, bits
      ensures Valid() && ((offs == old(offs) && bits == old(bits)) || (fresh(offs) && fresh(bits)))
      ensures forall x: int :: Has(x) <==> x != bit && old(Has(x))
    {
      var idx := Locate(bit);
      Store(idx, bits[idx] - {bit % BITS});
    }

    /** clearAll. */
    method ClearAll()
      requires Valid()
      modifies this`size
      ensures Valid() && forall x: int :: !Has(x)
    {
      size := 0;
    }
  }
  /** The arraycopy that makes room in front: the first `n` elements also become the last `n`. */
  method ToBack<T>(a: array<T>, n: nat)
    requires n <= a.Length
    modifies a
    ensures forall p :: a.Length - n <= p < a.Length ==> a[p] == old(a[..n])[p - (a.Length - n)]
    ensures forall p :: 0 <= p < a.Length - n ==> a[p] == old(a[p])
  {
    var zero := a.Length - n;
    forall i | zero <= i < a.Length { a[i] := a[i - zero]; }
  }

  method Recycle(offs: array<int>, bits: array<Block>, n: nat)
    requires n <= offs.Length == bits.Length
    modifies offs, bits
    ensures Unread(offs, bits, offs.Length - n, offs.Length - n, old(offs[..n]), old(bits[..n]))
    ensures offs[..offs.Length - n] == old(offs[..offs.Length - n])
    ensures bits[..offs.Length - n] == old(bits[..offs.Length - n])
  {
    ToBack(bits, n);
    ToBack(offs, n);
  }

  /** binop: `a` becomes the combination of `a` and `b`, which may be the same object. */
  method BinOp(a: SparseBitSet, b: SparseBitSet, op: Op)
    requires a.Valid() && b.Valid() && (a != b ==> a.offs != b.offs && a.bits != b.bits)
    modifies a, a.offs, a.bits
    ensures a.Valid() && ((a.offs == old(a.offs) && a.bits == old(a.bits)) || (fresh(a.offs) && fresh(a.bits)))
    ensures forall k :: a.Flags(k) == op.Apply(old(a.Flags(k)), old(b.Flags(k)))
    ensures forall i :: 0 <= i < a.size ==> a.bits[i] != {}
  {
    ghost var ao, ab, bo, bb := a.offs[..a.size], a.bits[..a.size], b.offs[..b.size], b.bits[..b.size];
    var noffs, nbits, zero := Workspace(a, b);
    assert Unread(b.offs, b.bits, 0, 0, bo, bb);
    var n := Crunch(a.offs, a.bits, zero, b.offs, b.bits, op, noffs, nbits, ao, ab, bo, bb, a.size, b.size);
    assert Combines(ao, ab, bo, bb, op, noffs[..n], nbits[..n]);
    a.bits := nbits;
    a.offs := noffs;
    a.size := n;
  }

  /** Where the output goes: new arrays, or the front of `a`'s own after its blocks moved to the back. */
  method Workspace(a: SparseBitSet, b: SparseBitSet) returns (noffs: array<int>, nbits: array<Block>, zero: nat)
    requires a.Valid() && b.Valid() && (a != b ==> a.offs != b.offs && a.bits != b.bits)
    modifies a.offs, a.bits
    ensures (noffs == a.offs && nbits == a.bits && b.size <= zero) || (fresh(noffs) && fresh(nbits) && zero == 0)
    ensures noffs.Length == nbits.Length > 0 && a.size + b.size <= noffs.Length
    ensures Unread(a.offs, a.bits, zero, zero, old(a.offs[..a.size]), old(a.bits[..a.size]))
    ensures b.offs[..b.size] == old(b.offs[..b.size]) && b.bits[..b.size] == old(b.bits[..b.size])
  {
    var nsize := a.size + b.size;
    if a.bits.Length < nsize {
      zero := 0;
      nbits := new Block[nsize](_ => {});
      noffs := new int[nsize](_ => 0);
    } else {
      nbits, noffs, zero := a.bits, a.offs, a.bits.Length - a.size;
      Recycle(a.offs, a.bits, a.size);
    }
  }

  /** Block-wise combination is combination of the sets. */
  method Combine(a: SparseBitSet, b: SparseBitSet, op: Op)
    requires a.Valid() && b.Valid() && (a != b ==> a.offs != b.offs && a.bits != b.bits)
    modifies a, a.offs, a.bits
    ensures a.Valid() && ((a.offs == old(a.offs) && a.bits == old(a.bits)) || (fresh(a.offs) && fresh(a.bits)))
    ensures forall x: int :: a.Has(x) <==>
              match op {
                case And => old(a.Has(x)) && old(b.Has(x))
                case Or => old(a.Has(x)) || old(b.Has(x))
                case Xor => old(a.Has(x)) != old(b.Has(x))
              }
  {
    BinOp(a, b, op);
  }

  // Equality.

  /** What the unread part cannot change. */
  lemma {:induction false} Settled(offs: seq<int>, bits: seq<Block>, i: nat, top: int, k: int)
    requires |offs| == |bits| && Frontier(offs, i, top) && k <= top
    ensures BlockOf(offs[..i], bits[..i], k) == BlockOf(offs, bits, k)
    decreases |offs| - i
  {
    if i < |offs| {
      var o, b := offs[..|offs| - 1], bits[..|bits| - 1];
      Settled(o, b, i, top, k);
      assert o[..i] == offs[..i] && b[..i] == bits[..i];
    } else {
      assert offs[..i] == offs && bits[..i] == bits;
    }
  }

  /** The first key at which the stores differ. */
  lemma {:induction false} Differs(ao: seq<int>, ab: seq<Block>, bo: seq<int>, bb: seq<Block>, i: nat, j: nat,
                                   nb: Block, key: int)
    requires Merging(ao, ab, bo, bb, Xor, i, j, [key], [nb], key)
    ensures BlockOf(ao, ab, key) != BlockOf(bo, bb, key)
  {
    Settled(ao, ab, i, key, key);
    Settled(bo, bb, j, key, key);
    assert BlockOf([key], [nb], key) == nb;
  }

  lemma {:induction false} NoDifference(ao: seq<int>, ab: seq<Block>, bo: seq<int>, bb: seq<Block>)
    requires |ao| == |ab| && |bo| == |bb| && Combines(ao, ab, bo, bb, Xor, [], [])
    ensures SameBlocks(ao, ab, bo, bb)
  {
    forall k: int ensures BlockOf(ao, ab, k) == BlockOf(bo, bb, k) {
      var a, b := BlockOf(ao, ab, k), BlockOf(bo, bb, k);
      assert BlockOf([], [], k) == (a - b) + (b - a);
      assert forall x :: x in a <==> x in b by {
        assert forall x :: x in a - b || x in b - a ==> x in {};
      }
    }
  }

  lemma {:induction false} XorEmpty(a: Block, b: Block)
    ensures Xor.Apply(a, b) == {} <==> a == b
  {
    if a != b {
      assert exists x :: x in a - b || x in b - a by {
        assert !(a <= b) || !(b <= a);
      }
    }
  }

  lemma {:induction false} CompareStep(ao: seq<int>, ab: seq<Block>, bo: seq<int>, bb: seq<Block>, i: nat, j: nat,
                                       top: int,
                                       i': nat, j': nat, first: Block, second: Block)
      returns (nb: Block, key: int)
    requires Merging(ao, ab, bo, bb, Xor, i, j, [], [], top) && (i < |ao| || j < |bo|)
    requires i' == (if TakesFirst(ao, bo, i, j) then i + 1 else i)
    requires j' == (if TakesSecond(ao, bo, i, j) then j + 1 else j)
    requires first == (if TakesFirst(ao, bo, i, j) then ab[i] else {})
    requires second == (if TakesSecond(ao, bo, i, j) then bb[j] else {})
    ensures Merging(ao, ab, bo, bb, Xor, i', j', if first != second then [key] else [], if first != second
              then [nb] else [], key)
  {
    key, nb := NextKey(ao, bo, i, j), Xor.Apply(first, second);
    XorEmpty(first, second);
    MergeStep(ao, ab, bo, bb, Xor, i, j, [], [], top, nb, i', j', Append([], key, nb != {}), Append([], nb, nb != {}),
        key);
  }

  /** The static equals: the two-finger walk, which skips empty blocks. */
  method EqualStores(a: SparseBitSet, b: SparseBitSet) returns (r: bool)
    requires a.Valid() && b.Valid()
    ensures r <==> SameBlocks(a.offs[..a.size], a.bits[..a.size], b.offs[..b.size], b.bits[..b.size])
  {
    ghost var ao, ab, bo, bb := a.offs[..a.size], a.bits[..a.size], b.offs[..b.size], b.bits[..b.size];
    var i: nat, j: nat := 0, 0;
    ghost var top := if ao == [] && bo == [] then 0 else NextKey(ao, bo, 0, 0) - 1;
    MergeStarts(ao, ab, bo, bb, Xor, [], [], top);
    while i < a.size || j < b.size
      invariant i <= a.size && j <= b.size
      invariant Merging(ao, ab, bo, bb, Xor, i, j, [], [], top)
      decreases a.size - i + b.size - j
    {
      ghost var i0, j0 := i, j;
      var first: Block, second: Block := {}, {};
      if i < a.size && (j >= b.size || a.offs[i] < b.offs[j]) {
        first := a.bits[i];
        i := i + 1;
      } else if j < b.size && (i >= a.size || a.offs[i] > b.offs[j]) {
        second := b.bits[j];
        j := j + 1;
      } else {
        first, second := a.bits[i], b.bits[j];
        i, j := i + 1, j + 1;
      }
      ghost var nb, key := CompareStep(ao, ab, bo, bb, i0, j0, top, i, j, first, second);
      if first != second {
        Differs(ao, ab, bo, bb, i, j, nb, key);
        return false;
      }
      top := key;
    }
    MergeEnds(ao, ab, bo, bb, Xor, [], [], top);
    NoDifference(ao, ab, bo, bb);
    return true;
  }

  /** Equal stores are equal sets. */
  lemma {:induction false} SameSets(a: SparseBitSet, b: SparseBitSet)
    requires a.Valid() && b.Valid()
    ensures SameBlocks(a.offs[..a.size], a.bits[..a.size], b.offs[..b.size], b.bits[..b.size]) <==>
              forall x: int :: a.Has(x) <==> b.Has(x)
  {
    if SameBlocks(a.offs[..a.size], a.bits[..a.size], b.offs[..b.size], b.bits[..b.size]) {
      forall x: int ensures a.Has(x) <==> b.Has(x) {
        assert a.Flags(x / BITS) == b.Flags(x / BITS);
      }
    }
    if forall x: int :: a.Has(x) <==> b.Has(x) {
      forall k: int ensures BlockOf(a.offs[..a.size], a.bits[..a.size], k) ==
          BlockOf(b.offs[..b.size], b.bits[..b.size], k) {
        forall e: nat | e < BITS ensures e in a.Flags(k) <==> e in b.Flags(k) {
          var x := k * BITS + e;
          assert x / BITS == k && x % BITS == e;
          assert a.Has(x) <==> b.Has(x);
        }
        assert forall e :: e in a.Flags(k) ==> e < BITS;
        assert forall e :: e in b.Flags(k) ==> e < BITS;
      }
    }
  }

  /** equals: exactly the equal sets. */
  method Equals(a: SparseBitSet, b: SparseBitSet) returns (r: bool)
    requires a.Valid() && b.Valid()
    ensures r <==> forall x: int :: a.Has(x) <==> b.Has(x)
  {
    r := EqualStores(a, b);
    SameSets(a, b);
  }

  // Hashing.

  /** The number written with the flags of `b` from bit `k` on. */
  function Word(b: Block, k: nat): nat
    requires k <= BITS
    decreases BITS - k
  {
    if k == BITS then 0
    else 2 * Word(b, k + 1) + if k in b then 1 else 0
  }

  /** Exclusive or of two numbers, bit by bit. */
  function Xored(a: nat, b: nat): nat
    decreases a + b
  {
    if a == 0 && b == 0 then 0
    else 2 * Xored(a / 2, b / 2) + (if a % 2 != b % 2 then 1 else 0)
  }

  /** The product of a block and its number, as 64 bits. */
  function Product(b: Block, k: int): nat {
    (Word(b, 0) * k) % 0x1_0000_0000_0000_0000
  }

  function Mix(offs: seq<int>, bits: seq<Block>): nat
    requires |offs| == |bits|
  {
    if offs == [] then 1234
    else Xored(Mix(offs[..|offs| - 1], bits[..|bits| - 1]), Product(bits[|bits| - 1], offs[|offs| - 1]))
  }

  // Bit by bit.

  /** Bit `i` of a number. */
  function Bit(n: nat, i: nat): bool
    decreases i
  {
    if i == 0 then n % 2 == 1 else Bit(n / 2, i - 1)
  }

  lemma {:induction false} ZeroBit(i: nat)
    ensures !Bit(0, i)
  {
    if i > 0 {
      ZeroBit(i - 1);
    }
  }

  /** The one bits of a block's number are its elements. */
  lemma {:induction false} WordBit(b: Block, k: nat, i: nat)
    requires k <= BITS
    ensures Bit(Word(b, k), i) <==> k + i in b
    decreases i
  {
    if k == BITS {
      ZeroBit(i);
    } else if i > 0 {
      WordBit(b, k + 1, i - 1);
    }
  }

  /** Exclusive or. */
  lemma {:induction false} XoredBit(a: nat, b: nat, i: nat)
    ensures Bit(Xored(a, b), i) <==> Bit(a, i) != Bit(b, i)
    decreases i
  {
    if i > 0 {
      XoredBit(a / 2, b / 2, i - 1);
    }
  }

  lemma {:induction false} ShiftBit(h: nat, n: nat, i: nat)
    ensures Bit(ShiftRight(h, n), i) <==> Bit(h, n + i)
    decreases n
  {
    if n > 0 {
      ShiftBit(h / 2, n - 1, i);
    }
  }

  lemma {:induction false} LowBit(h: nat, n: nat, i: nat)
    ensures Bit(LowBits(h, n), i) <==> i < n && Bit(h, i)
    decreases n
  {
    if n == 0 {
      ZeroBit(i);
    } else if i > 0 {
      LowBit(h / 2, n - 1, i - 1);
    }
  }

  function Power2(n: nat): nat {
    if n == 0 then 1 else 2 * Power2(n - 1)
  }

  lemma {:induction false} LowBound(h: nat, n: nat)
    ensures LowBits(h, n) < Power2(n)
  {
    if n > 0 {
      LowBound(h / 2, n - 1);
    }
  }

  lemma {:induction false} Power32()
    ensures Power2(32) == 0x1_0000_0000
  {
    assert Power2(4) == 16 && Power2(8) == 0x100;
    assert Power2(12) == 0x1000 && Power2(16) == 0x1_0000;
    assert Power2(20) == 0x10_0000 && Power2(24) == 0x100_0000;
    assert Power2(28) == 0x1000_0000;
  }

  /** The hash code is the low word, read as a signed number. */
  lemma {:induction false} FoldRange(h: nat)
    ensures -0x8000_0000 <= Fold(h) < 0x8000_0000
    ensures Unsigned(Fold(h)) == LowBits(Xored(ShiftRight(h, 32), h), 32)
  {
    LowBound(Xored(ShiftRight(h, 32), h), 32);
    Power32();
  }

  function Unsigned(n: int): int {
    if n < 0 then n + 0x1_0000_0000 else n
  }

  /** The low word is the exclusive or of the two halves. */
  lemma {:induction false} FoldBit(h: nat, i: nat)
    requires i < 32
    ensures -0x8000_0000 <= Fold(h) < 0x8000_0000
    ensures Unsigned(Fold(h)) >= 0 && (Bit(Unsigned(Fold(h)), i) <==> Bit(h, i) != Bit(h, 32 + i))
  {
    FoldRange(h);
    HalvesBit(h, i);
  }

  lemma {:induction false} HalvesBit(h: nat, i: nat)
    requires i < 32
    ensures Bit(LowBits(Xored(ShiftRight(h, 32), h), 32), i) <==> Bit(h, i) != Bit(h, 32 + i)
  {
    var high := ShiftRight(h, 32);
    ShiftBit(h, 32, i);
    XoredBit(high, h, i);
    LowBit(Xored(high, h), 32, i);
  }

  lemma {:induction false} EmptyWord(k: nat)
    requires k <= BITS
    ensures Word({}, k) == 0
    decreases BITS - k
  {
    if k < BITS {
      EmptyWord(k + 1);
    }
  }

  lemma {:induction false} XoredZero(a: nat)
    ensures Xored(a, 0) == a
  {
    if a != 0 {
      XoredZero(a / 2);
    }
  }

  /** Stray empty blocks do not change the hash. */
  lemma {:induction false} HashSkipsEmpty(offs: seq<int>, bits: seq<Block>)
    requires |offs| == |bits| && offs != [] && bits[|bits| - 1] == {}
    ensures Mix(offs, bits) == Mix(offs[..|offs| - 1], bits[..|bits| - 1])
  {
    EmptyWord(0);
    assert Product({}, offs[|offs| - 1]) == 0;
    XoredZero(Mix(offs[..|offs| - 1], bits[..|bits| - 1]));
  }

  lemma {:induction false} DropEmpty(offs: seq<int>, bits: seq<Block>)
    requires |offs| == |bits| && offs != [] && bits[|bits| - 1] == {} && Ascending(offs)
    ensures SameBlocks(offs[..|offs| - 1], bits[..|bits| - 1], offs, bits)
  {
    var n := |offs| - 1;
    forall k: int ensures BlockOf(offs[..n], bits[..n], k) == BlockOf(offs, bits, k) {
      if k == offs[n] {
        BlockNew(offs, bits, n);
      }
    }
  }

  /** A non-empty block is stored by both. */
  lemma {:induction false} StoredByBoth(ao: seq<int>, ab: seq<Block>, bo: seq<int>, bb: seq<Block>, i: nat)
    requires |ao| == |ab| && |bo| == |bb| && Ascending(ao) && Ascending(bo) && SameBlocks(ao, ab, bo, bb)
    requires i < |ao| && ab[i] != {}
    ensures ao[i] in bo
  {
    BlockAt(ao, ab, i);
    assert BlockOf(bo, bb, ao[i]) == ab[i];
    if ao[i] !in bo {
      BlockAbsent(bo, bb, ao[i]);
    }
  }

  lemma {:induction false} DropBoth(ao: seq<int>, ab: seq<Block>, bo: seq<int>, bb: seq<Block>)
    requires |ao| == |ab| && |bo| == |bb| && Ascending(ao) && Ascending(bo) && SameBlocks(ao, ab, bo, bb)
    requires ao != [] && bo != [] && ao[|ao| - 1] == bo[|bo| - 1]
    ensures ab[|ab| - 1] == bb[|bb| - 1]
    ensures SameBlocks(ao[..|ao| - 1], ab[..|ab| - 1], bo[..|bo| - 1], bb[..|bb| - 1])
  {
    var m, n := |ao| - 1, |bo| - 1;
    assert BlockOf(ao, ab, ao[m]) == BlockOf(bo, bb, ao[m]);
    forall k: int ensures BlockOf(ao[..m], ab[..m], k) == BlockOf(bo[..n], bb[..n], k) {
      assert BlockOf(ao, ab, k) == BlockOf(bo, bb, k);
      if k == ao[m] {
        BlockNew(ao, ab, m);
        BlockNew(bo, bb, n);
      }
    }
  }

  /** Equal sets hash equally, whatever empty blocks their stores contain. */
  lemma {:induction false} EqualHash(ao: seq<int>, ab: seq<Block>, bo: seq<int>, bb: seq<Block>)
    requires |ao| == |ab| && |bo| == |bb| && Ascending(ao) && Ascending(bo) && SameBlocks(ao, ab, bo, bb)
    ensures Mix(ao, ab) == Mix(bo, bb)
    decreases |ao| + |bo|
  {
    var m, n := |ao| - 1, |bo| - 1;
    if ao != [] && ab[m] == {} {
      DropEmpty(ao, ab);
      HashSkipsEmpty(ao, ab);
      EqualHash(ao[..m], ab[..m], bo, bb);
    } else if bo != [] && bb[n] == {} {
      DropEmpty(bo, bb);
      HashSkipsEmpty(bo, bb);
      EqualHash(ao, ab, bo[..n], bb[..n]);
    } else if ao != [] || bo != [] {
      if ao != [] { StoredByBoth(ao, ab, bo, bb, m); }
      if bo != [] { StoredByBoth(bo, bb, ao, ab, n); }
      SameLast(ao, bo);
      DropBoth(ao, ab, bo, bb);
      EqualHash(ao[..m], ab[..m], bo[..n], bb[..n]);
    }
  }

  lemma {:induction false} SameLast(ao: seq<int>, bo: seq<int>)
    requires Ascending(ao) && Ascending(bo) && (ao != [] || bo != [])
    requires ao != [] ==> ao[|ao| - 1] in bo
    requires bo != [] ==> bo[|bo| - 1] in ao
    ensures ao != [] && bo != [] && ao[|ao| - 1] == bo[|bo| - 1]
  {}

  /** A set found by equals is found under its hash: equal sets have one hash code. */
  lemma {:induction false} KeysAgree(a: SparseBitSet, b: SparseBitSet)
    requires a.Valid() && b.Valid() && forall x: int :: a.Has(x) <==> b.Has(x)
    ensures Fold(Mix(a.offs[..a.size], a.bits[..a.size])) == Fold(Mix(b.offs[..b.size], b.bits[..b.size]))
  {
    SameSets(a, b);
    EqualHash(a.offs[..a.size], a.bits[..a.size], b.offs[..b.size], b.bits[..b.size]);
  }

  /** hashCode. */
  method HashCode(s: SparseBitSet) returns (r: int)
    requires s.Valid()
    ensures r == Fold(Mix(s.offs[..s.size], s.bits[..s.size]))
  {
    var h: nat, i: nat := 1234, 0;
    while i < s.size
      invariant i <= s.size && h == Mix(s.offs[..i], s.bits[..i])
    {
      h := Xored(h, Product(s.bits[i], s.offs[i]));
      assert s.offs[..i + 1][..i] == s.offs[..i] && s.bits[..i + 1][..i] == s.bits[..i];
      i := i + 1;
    }
    return Fold(h);
  }

  function ShiftRight(h: nat, n: nat): nat
    decreases n
  {
    if n == 0 then h else ShiftRight(h / 2, n - 1)
  }

  /** The low `n` bits. */
  function LowBits(h: nat, n: nat): nat
    decreases n
  {
    if n == 0 then 0 else h % 2 + 2 * LowBits(h / 2, n - 1)
  }

  /** The two halves of 64 bits combined and read as a signed 32-bit number. */
  function Fold(h: nat): int {
    var low := LowBits(Xored(ShiftRight(h, 32), h), 32);
    if low < 0x8000_0000 then low else low - 0x1_0000_0000
  }

  // Enumeration.

  class Elements {
    const store: SparseBitSet
    var idx: int
    var bit: int

    ghost predicate Valid()
      reads this, store, store.offs, store.bits
    {
      && store.Valid() && 0 <= idx <= store.size
      && (idx < store.size ==> 0 <= bit < BITS && bit in store.bits[idx])
    }

    /** Still to come: the members from the current position on. */
    ghost predicate Pending(x: int)
      requires Valid()
      reads this, store, store.offs, store.bits
    {
      store.Has(x) && idx < store.size && bit + store.offs[idx] * BITS <= x
    }

    /** Is `x` after flag `k` of the block stored at `i`? */
    ghost predicate Beyond(x: int, i: int, k: int)
      requires store.Valid()
      reads this, store, store.offs
      reads store.bits
    {
      i < 0 || (i < store.size && k + store.offs[i] * BITS < x)
    }

    constructor (s: SparseBitSet)
      requires s.Valid()
      ensures store == s && Valid() && forall x: int :: Pending(x) <==> s.Has(x)
    {
      store, idx, bit := s, -1, BITS;
      new;
      Advance();
    }

    /** A zero bit can be passed. */
    lemma {:induction false} PassBit(i: nat, k: nat, x: int)
      requires store.Valid() && i < store.size && k < BITS && k !in store.bits[i] && store.Has(x)
      ensures Beyond(x, i, k) <==> Beyond(x, i, k - 1)
    {
      if x == k + store.offs[i] * BITS {
        assert x / BITS == store.offs[i] && x % BITS == k;
        BlockAt(store.offs[..store.size], store.bits[..store.size], i);
      }
    }

    /** The first flag of a block follows the last of the block before. */
    lemma {:induction false} PassBlock(i: int, x: int)
      requires store.Valid() && -1 <= i < store.size && store.Has(x)
      ensures Beyond(x, i, BITS - 1) <==> Beyond(x, i + 1, -1)
    {
      var o := store.offs[..store.size];
      if x / BITS !in o {
        BlockAbsent(o, store.bits[..store.size], x / BITS);
      }
      var p :| 0 <= p < |o| && o[p] == x / BITS;
      if i < p {
        assert i + 1 < p ==> o[i + 1] < o[p];
        assert i >= 0 ==> o[i] < o[p];
      } else {
        assert p < i ==> o[p] < o[i];
        assert i + 1 < store.size ==> o[p] < o[i + 1];
      }
    }

    /** To the next one bit. */
    method Advance()
      requires store.Valid() && -1 <= idx < store.size && -1 <= bit <= BITS && (bit == BITS <==> idx == -1)
      modifies this
      ensures Valid() && (idx > old(idx) || (idx == old(idx) && bit > old(bit)))
      ensures forall x: int :: Pending(x) <==> store.Has(x) && Beyond(x, old(idx), old(bit))
    {
      while idx < store.size
        invariant -1 <= idx <= store.size && -1 <= bit <= BITS && (bit == BITS <==> idx == -1)
        invariant idx > old(idx) || (idx == old(idx) && bit == old(bit))
        invariant forall x: int | store.Has(x) :: Beyond(x, idx, bit) <==> Beyond(x, old(idx), old(bit))
        decreases store.size - idx
      {
        bit := bit + 1;
        ghost var at := idx;
        while bit < BITS
          invariant 0 <= bit && idx == at && (if at < 0 then bit > BITS else bit <= BITS)
          invariant at > old(idx) || bit > old(bit)
          invariant forall x: int | store.Has(x) :: Beyond(x, at, bit - 1) <==> Beyond(x, old(idx), old(bit))
        {
          if bit in store.bits[idx] {
            return;
          }
          forall x: int | store.Has(x) ensures Beyond(x, at, bit) <==> Beyond(x, at, bit - 1) {
            PassBit(at, bit, x);
          }
          bit := bit + 1;
        }
        forall x: int | store.Has(x) ensures Beyond(x, at, bit - 1) <==> Beyond(x, at + 1, -1) {
          PassBlock(at, x);
        }
        idx, bit := idx + 1, -1;
      }
    }

    method HasMoreElements() returns (r: bool)
      requires Valid()
      ensures r <==> exists x: int :: Pending(x)
    {
      r := idx < store.size;
      if r {
        Current();
      }
    }

    /** The current position is the least pending member. */
    lemma {:induction false} Current()
      requires Valid() && idx < store.size
      ensures Pending(bit + store.offs[idx] * BITS)
    {
      var x := bit + store.offs[idx] * BITS;
      assert x / BITS == store.offs[idx] && x % BITS == bit;
      BlockAt(store.offs[..store.size], store.bits[..store.size], idx);
    }

    /** nextElement: the least of what is pending. */
    method NextElement() returns (r: int)
      requires Valid() && idx < store.size
      modifies this
      ensures Valid() && old(Pending(r)) && forall x: int :: old(Pending(x)) ==> r <= x
      ensures forall x: int :: Pending(x) <==> old(Pending(x)) && x != r
      ensures idx > old(idx) || (idx == old(idx) && bit > old(bit))
    {
      r := bit + store.offs[idx] * BITS;
      Current();
      Advance();
    }
  }

  /** All of elements(): the members, each once, in ascending order. */
  method Members(s: SparseBitSet) returns (xs: seq<int>)
    requires s.Valid()
    ensures Ascending(xs) && forall x: int :: x in xs <==> s.Has(x)
  {
    xs := [];
    var e := new Elements(s);
    var more := e.HasMoreElements();
    while more
      invariant fresh(e) && e.store == s && e.Valid() && Ascending(xs)
      invariant more <==> exists x: int :: e.Pending(x)
      invariant forall x: int :: s.Has(x) <==> x in xs || e.Pending(x)
      invariant forall x: int, y: int :: x in xs && e.Pending(y) ==> x < y
      decreases s.size - e.idx, BITS - e.bit
    {
      var x := e.NextElement();
      AscendingSnoc(xs, x);
      xs := xs + [x];
      more := e.HasMoreElements();
    }
  }

  lemma {:induction false} AscendingSnoc(xs: seq<int>, x: int)
    requires Ascending(xs) && forall y :: y in xs ==> y < x
    ensures Ascending(xs + [x]) && forall y :: y in xs + [x] <==> y in xs || y == x
  {
    forall i, j | 0 <= i < j < |xs| + 1 ensures (xs + [x])[i] < (xs + [x])[j] {
      assert xs[i] in xs;
    }
  }

  /** size(): an upper bound of the members; without empty blocks and negative members, zero only for the empty set. */
  method Size(s: SparseBitSet) returns (r: int)
    requires s.Valid()
    ensures forall x: int :: s.Has(x) ==> x < r
    ensures (forall i :: 0 <= i < s.size ==> s.bits[i] != {} && s.offs[i] >= 0) ==>
              (r == 0 <==> forall x: int :: !s.Has(x))
  {
    r := if s.size == 0 then 0 else (1 + s.offs[s.size - 1]) * BITS;
    SizeBounds(s);
  }

  lemma {:induction false} SizeBounds(s: SparseBitSet)
    requires s.Valid()
    ensures forall x: int :: s.Has(x) ==> s.size > 0 && x < (1 + s.offs[s.size - 1]) * BITS
    ensures forall i :: 0 <= i < s.size && s.bits[i] != {} ==> exists x: int :: s.Has(x)
  {
    var o, b := s.offs[..s.size], s.bits[..s.size];
    forall x: int | s.Has(x) ensures s.size > 0 && x < (1 + s.offs[s.size - 1]) * BITS {
      if x / BITS !in o {
        BlockAbsent(o, b, x / BITS);
      }
      var p :| 0 <= p < |o| && o[p] == x / BITS;
      assert p < |o| - 1 ==> o[p] < o[|o| - 1];
    }
    forall i | 0 <= i < s.size && s.bits[i] != {} ensures exists x: int :: s.Has(x) {
      var e :| e in s.bits[i];
      BlockAt(o, b, i);
      var x := s.offs[i] * BITS + e;
      assert x / BITS == s.offs[i] && x % BITS == e;
      assert s.Has(x);
    }
  }
}
