/** tarfs: a read-only file system on a block device.  All offsets are 64-bit, and sums wrap around. */
module Tarfs {
  type byte = x: int | 0 <= x < 256

  const BSIZE: nat := 4096
  const SECTOR: nat := 512
  const U64: nat := 0x1_0000_0000_0000_0000
  /** The size of an inode and of a directory entry on disk. */
  const INODE: nat := 32
  const DIRENT: nat := 32

  datatype Error = ENXIO | EIO | E2BIG | ERANGE | ENOENT
  datatype Result<T> = Ok(value: T) | Err(error: Error)

  function Add64(a: nat, b: nat): nat { (a + b) % U64 }
  function Mul64(a: nat, b: nat): nat { (a * b) % U64 }

  /** What is on the device, in whole sectors, and which blocks cannot be read. */
  datatype Device = Device(data: seq<byte>, bad: set<nat>) {
    ghost predicate Valid() { |data| < U64 && |data| % SECTOR == 0 }
  }

  /** sb_bread: a block, the end of the device filled up with zeros. */
  function Block(dev: Device, n: nat): Result<seq<byte>> {
    if n in dev.bad then Err(EIO)
    else Ok(seq(BSIZE, i requires 0 <= i => if n * BSIZE + i < |dev.data| then dev.data[n * BSIZE + i] else 0))
  }

  // What the operations mean, byte by byte and without wrap-around.

  ghost predicate Readable(dev: Device, pos: nat, len: nat) {
    forall i :: pos <= i < pos + len ==> i / BSIZE !in dev.bad
  }

  ghost function Read(dev: Device, pos: nat, len: nat): Result<seq<byte>> {
    if pos + len >= U64 then Err(ERANGE)
    else if pos + len > |dev.data| || !Readable(dev, pos, len) then Err(EIO)
    else Ok(dev.data[pos..pos + len])
  }

  /** Comparison with a string: 1, 0, or an error. */
  datatype Verdict = Match | NoMatch | Failed

  ghost function CompareAt(dev: Device, pos: nat, str: seq<byte>): Verdict
    requires pos + |str| <= |dev.data|
    decreases |str|
  {
    if str == [] then Match
    else if pos / BSIZE in dev.bad then Failed
    else if dev.data[pos] != str[0] then NoMatch
    else CompareAt(dev, pos + 1, str[1..])
  }

  ghost function Compare(dev: Device, pos: nat, str: seq<byte>): Verdict {
    if pos + |str| > |dev.data| then NoMatch else CompareAt(dev, pos, str)
  }

  /** Little-endian numbers. */
  function Le(s: seq<byte>): nat {
    if s == [] then 0 else s[0] + 256 * Le(s[1..])
  }

  lemma {:induction false} Le64(s: seq<byte>)
    requires |s| == 8
    ensures Le(s) < U64
  {
    LeBound(s, 8);
  }

  function Power(n: nat): nat {
    if n == 0 then 1 else 256 * Power(n - 1)
  }

  lemma {:induction false} LeBound(s: seq<byte>, n: nat)
    requires |s| == n
    ensures Le(s) < Power(n)
  {
    if n > 0 {
      LeBound(s[1..], n - 1);
    }
  }

  /** The value of a digit is its place. */
  lemma {:induction false} LeSnoc(s: seq<byte>, b: byte)
    ensures Le(s + [b]) == Le(s) + b * Power(|s|)
  {
    if s != [] {
      LeSnoc(s[1..], b);
      assert (s + [b])[1..] == s[1..] + [b];
    }
  }

  /** The check for wrap-around is exact. */
  lemma {:induction false} WrapCheck(a: nat, b: nat)
    requires a < U64 && b < U64
    ensures Add64(a, b) < a <==> a + b >= U64
    ensures a + b < U64 ==> Add64(a, b) == a + b
  {}

  lemma {:induction false} Agreement(dev: Device, pos: nat, a: seq<byte>, b: seq<byte>)
    requires pos + |a| + |b| <= |dev.data| && Readable(dev, pos, |a|)
    ensures CompareAt(dev, pos, a + b) == if dev.data[pos..pos + |a|] == a then CompareAt(dev, pos + |a|, b)
              else NoMatch
    decreases |a|
  {
    if a == [] {
      assert a + b == b;
    } else {
      assert (a + b)[1..] == a[1..] + b;
      assert pos / BSIZE !in dev.bad;
      var d := dev.data[pos..pos + |a|];
      assert d[1..] == dev.data[pos + 1..pos + 1 + |a[1..]|];
      assert d == [d[0]] + d[1..] && a == [a[0]] + a[1..];
      Agreement(dev, pos + 1, a[1..], b);
    }
  }

  /** What a comparison says about the bytes on the device. */
  lemma {:induction false} CompareMeans(dev: Device, pos: nat, str: seq<byte>)
    ensures Compare(dev, pos, str) == Match <==>
            pos + |str| <= |dev.data| && Readable(dev, pos, |str|) && dev.data[pos..pos + |str|] == str
    ensures Readable(dev, pos, |str|) ==> Compare(dev, pos, str) != Failed
  {
    if pos + |str| <= |dev.data| {
      if Readable(dev, pos, |str|) {
        Agreement(dev, pos, str, []);
        assert str + [] == str;
      } else {
        Unreadable(dev, pos, str);
      }
    }
  }

  lemma {:induction false} Unreadable(dev: Device, pos: nat, str: seq<byte>)
    requires pos + |str| <= |dev.data| && !Readable(dev, pos, |str|)
    ensures CompareAt(dev, pos, str) != Match
    decreases |str|
  {
    if str != [] && pos / BSIZE !in dev.bad {
      assert !Readable(dev, pos + 1, |str[1..]|) by {
        var i :| pos <= i < pos + |str| && i / BSIZE in dev.bad;
        assert i != pos;
      }
      Unreadable(dev, pos + 1, str[1..]);
    }
  }

  /** Part of one block. */
  lemma {:induction false} Segment(dev: Device, pos: nat, segment: nat)
    requires pos % BSIZE + segment <= BSIZE && pos + segment <= |dev.data| && segment > 0
    ensures Readable(dev, pos, segment) <==> pos / BSIZE !in dev.bad
    ensures pos / BSIZE !in dev.bad ==>
              Block(dev, pos / BSIZE).Ok? && Block(dev, pos / BSIZE).value[pos % BSIZE..pos % BSIZE + segment] ==
                  dev.data[pos..pos + segment]
  {
    var n, o := pos / BSIZE, pos % BSIZE;
    assert pos == n * BSIZE + o;
    forall i | pos <= i < pos + segment ensures i / BSIZE == n {
      assert i == n * BSIZE + (i - n * BSIZE) && 0 <= i - n * BSIZE < BSIZE;
    }
    assert pos <= pos < pos + segment;
  }

  lemma {:induction false} SegmentAgrees(dev: Device, at: nat, str: seq<byte>, done: nat, segment: nat)
    requires done + segment <= |str| && at + |str| - done <= |dev.data| && Readable(dev, at, segment)
    ensures CompareAt(dev, at, str[done..]) ==
            if dev.data[at..at + segment] == str[done..done + segment]
                then CompareAt(dev, at + segment, str[done + segment..]) else NoMatch
  {
    assert str[done..] == str[done..done + segment] + str[done + segment..];
    Agreement(dev, at, str[done..done + segment], str[done + segment..]);
  }

  /** memcpy. */
  method CopyInto(buf: array<byte>, at: nat, from: seq<byte>)
    requires at + |from| <= buf.Length
    modifies buf
    ensures buf[..at] == old(buf[..at]) && buf[at..at + |from|] == from && buf[at + |from|..] == old(buf[at + |from|..])
  {
    forall i | 0 <= i < |from| { buf[at + i] := from[i]; }
  }

  lemma {:induction false} ReadOn(dev: Device, pos: nat, done: nat, segment: nat, got: seq<byte>, more: seq<byte>)
    requires pos + done + segment <= |dev.data| && got == dev.data[pos..pos + done]
    requires more == dev.data[pos + done..pos + done + segment]
    ensures got + more == dev.data[pos..pos + (done + segment)]
    ensures Readable(dev, pos, done) && Readable(dev, pos + done, segment) ==> Readable(dev, pos, done + segment)
  {}

  class Mount {
    const dev: Device
    var tableOffset: nat
    var inodeCount: nat
    var dataSize: nat

    constructor (dev: Device)
      ensures this.dev == dev
    {
      this.dev := dev;
      tableOffset, inodeCount, dataSize := 0, 0, 0;
    }

    /** The state that reading relies on. */
    ghost predicate Ready()
      reads this
    {
      dev.Valid() && dataSize == |dev.data|
    }

    /** tarfs_dev_read: a copy, block by block, of the bytes asked for. */
    method DevRead(pos: nat, buf: array<byte>, buflen: nat) returns (r: Result<()>)
      requires Ready() && pos < U64 && buflen < U64 && buflen <= buf.Length
      modifies buf
      ensures r == match Read(dev, pos, buflen) { case Ok(_) => Ok(()) case Err(e) => Err(e) }
      ensures r.Ok? ==> buf[..buflen] == Read(dev, pos, buflen).value && buf[buflen..] == old(buf[buflen..])
    {
      WrapCheck(pos, buflen);
      if Add64(pos, buflen) < pos {
        return Err(ERANGE);
      }
      if Add64(pos, buflen) > dataSize {
        return Err(EIO);
      }
      var done: nat := 0;
      while done < buflen
        invariant done <= buflen && Readable(dev, pos, done)
        invariant buf[..done] == dev.data[pos..pos + done] && buf[buflen..] == old(buf[buflen..])
      {
        var ok, segment := ReadSegment(pos, buf, buflen, done);
        if !ok {
          return Err(EIO);
        }
        done := done + segment;
      }
      return Ok(());
    }

    /** One block's share of a read. */
    method ReadSegment(pos: nat, buf: array<byte>, buflen: nat, done: nat) returns (ok: bool, segment: nat)
      requires Ready() && pos + buflen <= |dev.data| && done < buflen <= buf.Length
      requires Readable(dev, pos, done) && buf[..done] == dev.data[pos..pos + done]
      modifies buf
      ensures ok ==> 0 < segment <= buflen - done && Readable(dev, pos, done + segment)
      ensures ok ==> buf[..done + segment] == dev.data[pos..pos + (done + segment)]
      ensures ok ==> buf[buflen..] == old(buf[buflen..])
      ensures !ok ==> !Readable(dev, pos, buflen)
    {
      var at := pos + done;
      var offset := at % BSIZE;
      segment := if buflen - done < BSIZE - offset then buflen - done else BSIZE - offset;
      var bh := Block(dev, at / BSIZE);
      Segment(dev, at, segment);
      if bh.Err? {
        return false, segment;
      }
      ok := true;
      var part := bh.value[offset..offset + segment];
      ReadOn(dev, pos, done, segment, buf[..done], part);
      CopyInto(buf, done, part);
      assert buf[..done + segment] == buf[..done] + buf[done..done + segment];
    }

    /** tarfs_strcmp: comparison block by block. */
    method Strcmp(pos: nat, str: seq<byte>) returns (r: Verdict)
      requires Ready() && pos < U64 && |str| < U64
      ensures r == Compare(dev, pos, str)
    {
      WrapCheck(pos, |str|);
      if Add64(pos, |str|) < pos || Add64(pos, |str|) > dataSize {
        return NoMatch;
      }
      var done: nat := 0;
      while done < |str|
        invariant done <= |str|
        invariant CompareAt(dev, pos, str) == CompareAt(dev, pos + done, str[done..])
      {
        var verdict, segment := CompareSegment(pos + done, str, done);
        if verdict != Match {
          return verdict;
        }
        done := done + segment;
      }
      return Match;
    }

    /** One block's share of a comparison. */
    method CompareSegment(at: nat, str: seq<byte>, done: nat) returns (r: Verdict, segment: nat)
      requires Ready() && done < |str| && at + |str| - done <= |dev.data|
      ensures 0 < segment <= |str| - done
      ensures CompareAt(dev, at, str[done..]) == if r == Match
                then CompareAt(dev, at + segment, str[done + segment..]) else r
    {
      var offset := at % BSIZE;
      segment := if |str| - done < BSIZE - offset then |str| - done else BSIZE - offset;
      var bh := Block(dev, at / BSIZE);
      Segment(dev, at, segment);
      if bh.Err? {
        return Failed, segment;
      }
      SegmentAgrees(dev, at, str, done, segment);
      var matched := bh.value[offset..offset + segment] == str[done..done + segment];
      return if matched then Match else NoMatch, segment;
    }

    /** What tarfs_fill_super establishes: the inode table lies on the device. */
    ghost predicate Mounted()
      reads this
    {
      Ready() && tableOffset + inodeCount * INODE <= dataSize
    }

    /** tarfs_fill_super: reads the super block and checks it, then reads the root inode. */
    method FillSuper() returns (r: Result<Inode>)
      requires dev.Valid()
      modifies this
      ensures r == Root(dev)
      ensures r.Ok? ==> Mounted() && inodeCount >= 1 && Super(dev) == Ok((tableOffset, inodeCount))
    {
      var super := ReadSuper();
      if super.Err? {
        return Err(super.error);
      }
      var problem := CheckSuper();
      if problem.Err? {
        return Err(problem.error);
      }
      r := Iget(1);
    }

    /** The last 512 bytes of the last block. */
    method ReadSuper() returns (r: Result<()>)
      requires dev.Valid()
      modifies this
      ensures r.Err? ==> Super(dev) == Err(r.error)
      ensures r.Ok? ==> Ready() && tableOffset < U64 && inodeCount < U64 && Super(dev) == Ok((tableOffset, inodeCount))
    {
      var scount := |dev.data| / SECTOR;
      if scount < BSIZE / SECTOR {
        return Err(ENXIO);
      }
      var n := scount * SECTOR / BSIZE - 1;
      var bh := Block(dev, n);
      if bh.Err? {
        return Err(EIO);
      }
      var super := bh.value[BSIZE - 512..];
      SuperBytes(dev, n, super);
      Le64(super[..8]);
      Le64(super[8..16]);
      tableOffset, inodeCount := Le(super[..8]), Le(super[8..16]);
      dataSize := scount * SECTOR;
      return Ok(());
    }

    /** The checks on the inode table, in wrapping arithmetic. */
    method CheckSuper() returns (r: Result<()>)
      requires Ready() && tableOffset < U64 && inodeCount < U64
      ensures r == SuperProblem((tableOffset, inodeCount), |dev.data|)
      ensures r.Ok? ==> Mounted()
    {
      if tableOffset >= dataSize {
        return Err(E2BIG);
      }
      if inodeCount > (U64 - 1) / INODE {
        return Err(ERANGE);
      }
      var end := Add64(Mul64(inodeCount, INODE), tableOffset);
      assert inodeCount * INODE < U64;
      WrapCheck(tableOffset, inodeCount * INODE);
      if end < tableOffset {
        return Err(ERANGE);
      }
      if end > dataSize {
        return Err(E2BIG);
      }
      return Ok(());
    }

    /** tarfs_iget: for every inode number of the table the read stays in range. */
    method Iget(ino: nat) returns (r: Result<Inode>)
      requires Mounted() && ino < U64
      ensures r == if 1 <= ino <= inodeCount then InodeAt(dev, tableOffset, ino) else Err(ENOENT)
      ensures r != Err(ERANGE)
      ensures r == Err(EIO) <==> 1 <= ino <= inodeCount && !Readable(dev, tableOffset + INODE * (ino - 1), INODE)
    {
      if ino == 0 || ino > inodeCount {
        return Err(ENOENT);
      }
      InTable(dataSize, tableOffset, inodeCount, ino);
      var disk := new byte[INODE](_ => 0);
      var read := DevRead(Add64(tableOffset, Mul64(INODE, ino - 1)), disk, INODE);
      if read.Err? {
        return Err(read.error);
      }
      assert disk[..INODE] == disk[..];
      r := DecodeInode(disk[..]);
    }
  }

  lemma {:induction false} SuperBytes(dev: Device, n: nat, super: seq<byte>)
    requires Block(dev, n).Ok? && super == Block(dev, n).value[BSIZE - 512..] && (n + 1) * BSIZE <= |dev.data|
    ensures var at := n * BSIZE + BSIZE - 512;
            super[..8] == dev.data[at..at + 8] && super[8..16] == dev.data[at + 8..at + 16]
  {
    var at := n * BSIZE + BSIZE - 512;
    forall i | 0 <= i < 16 ensures super[i] == dev.data[at + i] {
      assert super[i] == Block(dev, n).value[BSIZE - 512 + i];
    }
  }

  /** The offsets of table entries do not wrap around. */
  lemma {:induction false} InTable(size: nat, offset: nat, count: nat, ino: nat)
    requires size < U64 && offset + count * INODE <= size && 1 <= ino <= count
    ensures Add64(offset, Mul64(INODE, ino - 1)) == offset + INODE * (ino - 1)
    ensures offset + INODE * (ino - 1) + INODE <= size
  {}

  datatype Inode = Inode(mode: nat, owner: nat, group: nat, mtime: nat, size: nat, flags: byte, offset: nat)

  // File types, the upper four bits of a mode.
  const REG := 8
  const DIR := 4
  const LNK := 10
  const SPECIAL := {12, 1, 2, 6}

  /** An inode from its 32 bytes on disk. */
  function DecodeInode(d: seq<byte>): (r: Result<Inode>)
    requires |d| == INODE
    ensures r.Ok? <==> Le(d[..2]) / 512 % 8 == 0 && Le(d[..2]) / 4096 in {REG, DIR, LNK} + SPECIAL
    ensures r.Err? ==> r.error == ENOENT
  {
    var mode, kind := Le(d[..2]), Le(d[..2]) / 4096;
    if mode / 512 % 8 != 0 then Err(ENOENT)
    else if kind !in {REG, DIR, LNK} + SPECIAL then Err(ENOENT)
    else Ok(Inode(mode, Le(d[4..8]), Le(d[8..12]), d[3] % 16 * 0x1_0000_0000 + Le(d[12..16]), Le(d[16..24]), d[2],
                  if kind in SPECIAL then 0 else Le(d[24..32])))
  }

  /** An inode on disk: mode, flags, the high part of the time, owner, group, the low part of the time,
      size, and data offset, which special files do not have. */
  lemma {:induction false} InodeLayout(mode: seq<byte>, flags: byte, hmtime: byte, owner: seq<byte>, group: seq<byte>,
                                       lmtime: seq<byte>, size: seq<byte>, offset: seq<byte>, d: seq<byte>)
    requires |mode| == 2 && |owner| == |group| == |lmtime| == 4 && |size| == |offset| == 8
    requires d == mode + [flags] + [hmtime] + owner + group + lmtime + size + offset
    ensures |d| == INODE
    ensures DecodeInode(d).Ok? ==>
              DecodeInode(d).value == Inode(Le(mode), Le(owner), Le(group), hmtime % 16 * 0x1_0000_0000 + Le(lmtime),
                                            Le(size), flags, if Le(mode) / 4096 in {12, 1, 2, 6} then 0 else Le(offset))
  {
    assert d[..2] == mode && d[2] == flags && d[3] == hmtime && d[4..8] == owner && d[8..12] == group;
    assert d[12..16] == lmtime && d[16..24] == size && d[24..32] == offset;
  }

  /** Inode `ino` of the table at `offset`. */
  ghost function InodeAt(dev: Device, offset: nat, ino: nat): Result<Inode>
    requires ino >= 1
  {
    match Read(dev, offset + INODE * (ino - 1), INODE)
    case Err(e) => Err(e)
    case Ok(d) => DecodeInode(d)
  }

  /** The super block: the place of the inode table and the number of inodes, in the last 512 bytes
      of the last whole block. */
  ghost function Super(dev: Device): Result<(nat, nat)> {
    if |dev.data| < BSIZE then Err(ENXIO)
    else if |dev.data| / BSIZE - 1 in dev.bad then Err(EIO)
    else
      var at := |dev.data| / BSIZE * BSIZE - 512;
      Ok((Le(dev.data[at..at + 8]), Le(dev.data[at + 8..at + 16])))
  }

  /** The inode table must lie within the device. */
  ghost function SuperProblem(table: (nat, nat), size: nat): (r: Result<()>)
    requires size < U64
    ensures r.Ok? <==> table.0 < size && table.0 + table.1 * INODE <= size
  {
    if table.0 >= size then Err(E2BIG)
    else if table.0 + table.1 * INODE >= U64 then Err(ERANGE)
    else if table.0 + table.1 * INODE > size then Err(E2BIG)
    else Ok(())
  }

  /** Mounting succeeds with the root inode: the super block is readable, the table is on the device
      and its first inode is good. */
  ghost function Root(dev: Device): Result<Inode>
    requires dev.Valid()
  {
    match Super(dev)
    case Err(e) => Err(e)
    case Ok(table) =>
      match SuperProblem(table, |dev.data|)
      case Err(e) => Err(e)
      case Ok(_) => if table.1 == 0 then Err(ENOENT) else InodeAt(dev, table.0, 1)
  }
}
