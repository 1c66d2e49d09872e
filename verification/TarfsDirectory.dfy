/** tarfs directories: listing, which can be interrupted at any entry, and lookup. */
module TarfsDirectory {
  import opened Tarfs

  /** What a directory entry gives to its reader. */
  datatype Entry = Entry(name: seq<byte>, ino: nat, kind: nat)

  function Ino(d: seq<byte>): nat requires |d| == DIRENT { Le(d[..8]) }
  function NameOffset(d: seq<byte>): nat requires |d| == DIRENT { Le(d[8..16]) }
  function NameLen(d: seq<byte>): nat requires |d| == DIRENT { Le(d[16..24]) }

  /** Types other than the known ones become DT_UNKNOWN. */
  function Kind(d: seq<byte>): nat
    requires |d| == DIRENT
  {
    if d[24] in {1, 2, 4, 6, 8, 10, 12} then d[24] else 0
  }

  lemma {:induction false} Sizes(d: seq<byte>)
    requires |d| == DIRENT
    ensures Ino(d) < U64 && NameOffset(d) < U64 && NameLen(d) < U64
  {
    Le64(d[..8]);
    Le64(d[8..16]);
    Le64(d[16..24]);
  }

  /** A directory entry on disk: inode number, place and length of the name, type, and padding. */
  lemma {:induction false} EntryLayout(ino: seq<byte>, nameOffset: seq<byte>, nameLen: seq<byte>, kind: byte,
                                       padding: seq<byte>, d: seq<byte>)
    requires |ino| == |nameOffset| == |nameLen| == 8 && |padding| == 7
    requires d == ino + nameOffset + nameLen + [kind] + padding
    ensures |d| == DIRENT
    ensures Ino(d) == Le(ino) && NameOffset(d) == Le(nameOffset) && NameLen(d) == Le(nameLen)
    ensures Kind(d) == if kind in {1, 2, 4, 6, 8, 10, 12} then kind else 0
  {
    assert d[..8] == ino && d[8..16] == nameOffset && d[16..24] == nameLen && d[24] == kind;
  }

  /** The entry stored at `at`. */
  ghost function EntryAt(dev: Device, at: nat): Result<Entry> {
    match Read(dev, at, DIRENT)
    case Err(e) => Err(e)
    case Ok(d) =>
      match Read(dev, NameOffset(d), NameLen(d))
      case Err(e) => Err(e)
      case Ok(name) => Ok(Entry(name, Ino(d), Kind(d)))
  }

  /** The entries of a directory of `n` entries at `offset`, each read by itself. */
  ghost function Slots(dev: Device, offset: nat, n: nat): (s: seq<Result<Entry>>)
    ensures |s| == n
  {
    seq(n, i requires 0 <= i < n => EntryAt(dev, offset + 32 * i))
  }

  /** The entries from number `k` on, up to the first that cannot be read. */
  ghost function Listing(slots: seq<Result<Entry>>, k: nat): seq<Entry>
    decreases |slots| - k
  {
    if k >= |slots| || slots[k].Err? then [] else [slots[k].value] + Listing(slots, k + 1)
  }

  /** Why a listing ends. */
  ghost function Ending(slots: seq<Result<Entry>>, k: nat): Result<()>
    decreases |slots| - k
  {
    if k >= |slots| then Ok(()) else if slots[k].Err? then Err(slots[k].error) else Ending(slots, k + 1)
  }

  /** Continuing a listing after `n` entries gives the rest of the listing. */
  lemma {:induction false} Resume(slots: seq<Result<Entry>>, k: nat, n: nat)
    requires n <= |Listing(slots, k)|
    ensures Listing(slots, k + n) == Listing(slots, k)[n..] && Ending(slots, k + n) == Ending(slots, k)
    decreases n
  {
    if n > 0 {
      Resume(slots, k + 1, n - 1);
    }
  }

  /** What comes after the first `n` entries. */
  lemma {:induction false} NextEntry(slots: seq<Result<Entry>>, k: nat, n: nat)
    requires n <= |Listing(slots, k)|
    ensures var rest, at := Listing(slots, k), k + n;
            if at < |slots| && slots[at].Ok?
            then n < |rest| && rest[n] == slots[at].value && rest[..n + 1] == rest[..n] + [rest[n]]
            else rest[..n] == rest && n == |rest| && Ending(slots, k) == if at >= |slots| then Ok(())
                else Err(slots[at].error)
  {
    Resume(slots, k, n);
    var rest, at := Listing(slots, k), k + n;
    if at < |slots| && slots[at].Ok? {
      assert rest[n..][0] == slots[at].value;
    } else {
      assert rest[n..] == [];
    }
  }

  /** The number of whole entries of a directory. */
  function Count(dir: Inode): nat { dir.size / 32 }

  ghost function Entries(dev: Device, dir: Inode): seq<Result<Entry>> { Slots(dev, dir.offset, Count(dir)) }

  /** The sizes that are refused. */
  predicate TooLarge(dir: Inode) {
    dir.offset + 32 * Count(dir) >= U64 || 32 * Count(dir) >= U64 - 1 - DIRENT
  }

  /** The caller's end of a listing: its position, what it has received, and how many more entries
      it takes before refusing one. */
  class DirContext {
    var pos: nat
    var emitted: seq<Entry>
    var room: nat

    constructor ()
      ensures pos == 0 && emitted == [] && room == 0
    {
      pos, emitted, room := 0, [], 0;
    }

    /** dir_emit. */
    method Emit(e: Entry) returns (taken: bool)
      modifies this`emitted, this`room
      ensures taken <==> old(room) > 0
      ensures taken ==> emitted == old(emitted) + [e] && room == old(room) - 1
      ensures !taken ==> emitted == old(emitted) && room == old(room)
    {
      taken := room > 0;
      if taken {
        emitted, room := emitted + [e], room - 1;
      }
    }
  }

  function Min(a: nat, b: nat): nat { if a < b then a else b }

  /** One entry, read with the help of a name buffer that grows as needed. */
  method ReadEntry(m: Mount, at: nat, buffer: array<byte>) returns (r: Result<Entry>, buffer': array<byte>)
    requires m.Ready() && at < U64
    modifies buffer
    ensures r == EntryAt(m.dev, at) && (buffer' == buffer || fresh(buffer'))
  {
    buffer' := buffer;
    var disk := new byte[DIRENT](_ => 0);
    var read := m.DevRead(at, disk, DIRENT);
    if read.Err? {
      return Err(read.error), buffer';
    }
    var d := disk[..];
    assert d == disk[..DIRENT];
    Sizes(d);
    var len := NameLen(d);
    if len > buffer.Length {
      buffer' := new byte[len](_ => 0);
    }
    read := m.DevRead(NameOffset(d), buffer', len);
    if read.Err? {
      return Err(read.error), buffer';
    }
    r := Ok(Entry(buffer'[..len], Ino(d), Kind(d)));
  }

  /** The loop of tarfs_readdir, from entry number `first` on. */
  method EmitEntries(m: Mount, offset: nat, size: nat, ctx: DirContext, ghost first: nat,
                     ghost slots: seq<Result<Entry>>)
      returns (r: Result<()>)
    requires m.Ready() && offset + size < U64 && size == 32 * |slots| && slots == Slots(m.dev, offset, |slots|)
    requires ctx.pos == 32 * first
    modifies ctx
    ensures var rest := Listing(slots, first);
            var n := Min(old(ctx.room), |rest|);
            && ctx.emitted == old(ctx.emitted) + rest[..n] && ctx.pos == 32 * (first + n)
            && r == if old(ctx.room) < |rest| then Ok(()) else Ending(slots, first)
  {
    ghost var rest, room, emitted := Listing(slots, first), ctx.room, ctx.emitted;
    ghost var n: nat := 0;
    var buffer := new byte[0](_ => 0);
    while ctx.pos < size
      invariant fresh(buffer) && n <= |rest| && n <= room && ctx.room == room - n
      invariant ctx.pos == 32 * (first + n) && ctx.emitted == emitted + rest[..n]
      decreases size - ctx.pos
    {
      NextEntry(slots, first, n);
      var e;
      e, buffer := ReadSlot(m, offset, ctx.pos, buffer, first + n, slots);
      if e.Err? {
        return Err(e.error);
      }
      var taken := ctx.Emit(e.value);
      if !taken {
        return Ok(());
      }
      ctx.pos := ctx.pos + DIRENT;
      n := n + 1;
    }
    NextEntry(slots, first, n);
    return Ok(());
  }

  method ReadSlot(m: Mount, offset: nat, pos: nat, buffer: array<byte>, ghost k: nat, ghost slots: seq<Result<Entry>>)
      returns (r: Result<Entry>, buffer': array<byte>)
    requires m.Ready() && slots == Slots(m.dev, offset, |slots|) && k < |slots| && pos == 32 * k && offset + pos < U64
    modifies buffer
    ensures r == slots[k] && (buffer' == buffer || fresh(buffer'))
  {
    r, buffer' := ReadEntry(m, Add64(offset, pos), buffer);
  }

  /** tarfs_readdir: emits the entries from the context's position on until one is refused or
      cannot be read; an error is reported only if there was no progress. */
  method Readdir(m: Mount, dir: Inode, ctx: DirContext) returns (r: Result<()>)
    requires m.Ready() && dir.offset < U64 && dir.size < U64
    modifies ctx
    ensures old(ctx.pos) % 32 != 0 || TooLarge(dir) ==>
              && r == Err(if old(ctx.pos) % 32 != 0 then ENOENT else ERANGE)
              && ctx.pos == old(ctx.pos) && ctx.emitted == old(ctx.emitted)
    ensures old(ctx.pos) % 32 == 0 && !TooLarge(dir) ==>
              var rest := Listing(Entries(m.dev, dir), old(ctx.pos) / 32);
              var n := Min(old(ctx.room), |rest|);
              && ctx.emitted == old(ctx.emitted) + rest[..n] && ctx.pos == old(ctx.pos) + 32 * n
              && r == if n > 0 || old(ctx.room) < |rest| then Ok(()) else Ending(Entries(m.dev, dir), old(ctx.pos) / 32)
  {
    var size, start := dir.size / DIRENT * DIRENT, ctx.pos;
    if ctx.pos % DIRENT != 0 {
      return Err(ENOENT);
    }
    WrapCheck(dir.offset, size);
    if Add64(dir.offset, size) < dir.offset {
      return Err(ERANGE);
    }
    if size >= U64 - 1 - DIRENT {
      return Err(ERANGE);
    }
    r := EmitEntries(m, dir.offset, size, ctx, ctx.pos / 32, Entries(m.dev, dir));
    r := if ctx.pos != start then Ok(()) else r;
  }

  ghost function Sum(rooms: seq<nat>): nat {
    if rooms == [] then 0 else Sum(rooms[..|rooms| - 1]) + rooms[|rooms| - 1]
  }

  lemma {:induction false} SumStep(rooms: seq<nat>, i: nat)
    requires i < |rooms|
    ensures Sum(rooms[..i + 1]) == Sum(rooms[..i]) + rooms[i]
  {
    assert rooms[..i + 1][..i] == rooms[..i];
  }

  /** One more call, with a caller that takes `room` entries. */
  method ListOn(m: Mount, dir: Inode, ctx: DirContext, room: nat, ghost k: nat)
    requires m.Ready() && dir.offset < U64 && dir.size < U64 && !TooLarge(dir)
    requires k <= |Listing(Entries(m.dev, dir), 0)| && ctx.pos == 32 * k
    requires ctx.emitted == Listing(Entries(m.dev, dir), 0)[..k]
    modifies ctx
    ensures var listing := Listing(Entries(m.dev, dir), 0);
            var k' := Min(k + room, |listing|);
            ctx.pos == 32 * k' && ctx.emitted == listing[..k']
  {
    Continued(Entries(m.dev, dir), k, room);
    ctx.room := room;
    var _ := Readdir(m, dir, ctx);
  }

  lemma {:induction false} Continued(slots: seq<Result<Entry>>, k: nat, room: nat)
    requires k <= |Listing(slots, 0)|
    ensures var listing, rest := Listing(slots, 0), Listing(slots, k);
            var n := Min(room, |rest|);
            k + n == Min(k + room, |listing|) && listing[..k] + rest[..n] == listing[..k + n]
  {
    Resume(slots, 0, k);
  }

  /** However a listing is interrupted, its parts are the one-shot listing: each entry once, in order. */
  method ListInParts(m: Mount, dir: Inode, rooms: seq<nat>) returns (all: seq<Entry>)
    requires m.Ready() && dir.offset < U64 && dir.size < U64 && !TooLarge(dir)
    ensures var listing := Listing(Entries(m.dev, dir), 0); all == listing[..Min(Sum(rooms), |listing|)]
  {
    var ctx := new DirContext();
    ghost var listing := Listing(Entries(m.dev, dir), 0);
    for i := 0 to |rooms|
      invariant fresh(ctx)
      invariant var k := Min(Sum(rooms[..i]), |listing|); ctx.pos == 32 * k && ctx.emitted == listing[..k]
    {
      SumStep(rooms, i);
      ListOn(m, dir, ctx, rooms[i], Min(Sum(rooms[..i]), |listing|));
    }
    assert rooms[..|rooms|] == rooms;
    all := ctx.emitted;
  }

  // Lookup.

  /** Does the entry at `at` have that name?  Reading may fail. */
  ghost function NamedAt(dev: Device, at: nat, name: seq<byte>): Result<bool> {
    match Read(dev, at, DIRENT)
    case Err(e) => Err(e)
    case Ok(d) =>
      if NameLen(d) != |name| then Ok(false)
      else match Compare(dev, NameOffset(d), name)
        case Match => Ok(true)
        case NoMatch => Ok(false)
        case Failed => Err(EIO)
  }

  /** That question, for all entries of a directory. */
  ghost function Probes(dev: Device, offset: nat, n: nat, name: seq<byte>): (s: seq<Result<bool>>)
    ensures |s| == n
  {
    seq(n, i requires 0 <= i < n => NamedAt(dev, offset + 32 * i, name))
  }

  /** The number of the first entry, from `k` on, with that name. */
  ghost function Find(probes: seq<Result<bool>>, k: nat): Result<nat>
    decreases |probes| - k
  {
    if k >= |probes| then Err(ENOENT)
    else if probes[k].Err? then Err(probes[k].error)
    else if probes[k].value then Ok(k)
    else Find(probes, k + 1)
  }

  /** One round of the loop of tarfs_lookup: the inode number if the name is found. */
  method Probe(m: Mount, at: nat, name: seq<byte>) returns (found: Result<bool>, ino: nat)
    requires m.Ready() && at < U64 && |name| < U64
    ensures found == NamedAt(m.dev, at, name)
    ensures found == Ok(true) ==> ino == Ino(Read(m.dev, at, DIRENT).value)
  {
    ino := 0;
    var disk := new byte[DIRENT](_ => 0);
    var read := m.DevRead(at, disk, DIRENT);
    if read.Err? {
      return Err(read.error), ino;
    }
    var d := disk[..];
    assert d == disk[..DIRENT];
    Sizes(d);
    if NameLen(d) != |name| {
      return Ok(false), ino;
    }
    var verdict := m.Strcmp(NameOffset(d), name);
    match verdict {
      case Failed => return Err(EIO), ino;
      case NoMatch => return Ok(false), ino;
      case Match => return Ok(true), Ino(d);
    }
  }

  method ProbeSlot(m: Mount, offset: nat, cur: nat, name: seq<byte>, ghost k: nat, ghost probes: seq<Result<bool>>)
      returns (found: Result<bool>, ino: nat)
    requires m.Ready() && |name| < U64 && probes == Probes(m.dev, offset, |probes|, name)
    requires k < |probes| && cur == 32 * k && offset + cur < U64
    ensures found == probes[k] && (found == Ok(true) ==> ino == Ino(Read(m.dev, offset + 32 * k, DIRENT).value))
  {
    found, ino := Probe(m, Add64(offset, cur), name);
  }

  /** tarfs_lookup, up to the inode number that is then looked up in the inode table. */
  method Lookup(m: Mount, dir: Inode, name: seq<byte>) returns (r: Result<nat>)
    requires m.Ready() && dir.offset < U64 && dir.size < U64 && |name| < U64
    ensures r == LookupResult(m.dev, dir, name)
  {
    var size := dir.size / DIRENT * DIRENT;
    WrapCheck(dir.offset, size);
    if Add64(dir.offset, size) < dir.offset {
      return Err(ERANGE);
    }
    if size >= U64 - 1 - DIRENT {
      return Err(ERANGE);
    }
    var cur := 0;
    ghost var k: nat, probes := 0, Probes(m.dev, dir.offset, Count(dir), name);
    while cur < size
      invariant cur == 32 * k && Find(probes, 0) == Find(probes, k)
      decreases size - cur
    {
      var found, ino := ProbeSlot(m, dir.offset, cur, name, k, probes);
      if found.Err? {
        return Err(found.error);
      }
      if found.value {
        return Ok(ino);
      }
      cur := cur + DIRENT;
      k := k + 1;
    }
    return Err(ENOENT);
  }

  ghost function LookupResult(dev: Device, dir: Inode, name: seq<byte>): Result<nat> {
    if TooLarge(dir) then Err(ERANGE)
    else match Find(Probes(dev, dir.offset, Count(dir), name), 0)
      case Err(e) => Err(e)
      case Ok(k) =>
        match Read(dev, dir.offset + 32 * k, DIRENT)
        case Ok(d) => Ok(Ino(d))
        case Err(e) => Err(e)
  }

  /** An entry that can be listed is found under its name and no other. */
  lemma {:induction false} ListedName(dev: Device, at: nat, name: seq<byte>)
    requires EntryAt(dev, at).Ok?
    ensures NamedAt(dev, at, name) == Ok(EntryAt(dev, at).value.name == name)
  {
    var d := Read(dev, at, DIRENT).value;
    if NameLen(d) == |name| {
      CompareMeans(dev, NameOffset(d), name);
    }
  }

  /** The first entry with that name. */
  ghost function FirstNamed(entries: seq<Entry>, name: seq<byte>): (r: nat)
    ensures r <= |entries|
  {
    if entries == [] || entries[0].name == name then 0 else 1 + FirstNamed(entries[1..], name)
  }

  lemma {:induction false} FirstNamedIsFirst(entries: seq<Entry>, name: seq<byte>)
    ensures var r := FirstNamed(entries, name);
            (r < |entries| ==> entries[r].name == name) && forall i :: 0 <= i < r ==> entries[i].name != name
  {
    if entries != [] && entries[0].name != name {
      FirstNamedIsFirst(entries[1..], name);
    }
  }

  /** Probing finds the first listed entry; if the listing is complete, it finds no other. */
  lemma {:induction false} FindListed(slots: seq<Result<Entry>>, probes: seq<Result<bool>>, k: nat, name: seq<byte>)
    requires |slots| == |probes|
    requires forall i :: 0 <= i < |slots| && slots[i].Ok? ==> probes[i] == Ok(slots[i].value.name == name)
    ensures var listing := Listing(slots, k);
            var j := FirstNamed(listing, name);
            if j < |listing| then k + j < |slots| && Find(probes, k) == Ok(k + j) && slots[k + j] == Ok(listing[j])
            else Ending(slots, k).Ok? ==> Find(probes, k) == Err(ENOENT)
    decreases |slots| - k
  {
    if k < |slots| && slots[k].Ok? {
      assert Listing(slots, k)[1..] == Listing(slots, k + 1);
      FindListed(slots, probes, k + 1, name);
    }
  }

  /** Lookup agrees with listing: a listed name leads to the inode of the first entry with that name,
      and, if the whole directory can be listed, no other name leads anywhere. */
  lemma {:induction false} LookupAgrees(dev: Device, dir: Inode, name: seq<byte>)
    requires !TooLarge(dir)
    ensures var listing := Listing(Entries(dev, dir), 0);
            var j := FirstNamed(listing, name);
            if j < |listing| then LookupResult(dev, dir, name) == Ok(listing[j].ino)
            else Ending(Entries(dev, dir), 0).Ok? ==> LookupResult(dev, dir, name) == Err(ENOENT)
  {
    var n := Count(dir);
    var slots, probes := Slots(dev, dir.offset, n), Probes(dev, dir.offset, n, name);
    ProbesAgree(dev, dir.offset, n, name);
    FindListed(slots, probes, 0, name);
    var j := FirstNamed(Listing(slots, 0), name);
    if j < |Listing(slots, 0)| {
      FoundAt(dev, dir, name, j);
    }
  }

  /** The entry that the search finds gives the inode number. */
  lemma {:induction false} FoundAt(dev: Device, dir: Inode, name: seq<byte>, k: nat)
    requires !TooLarge(dir) && k < Count(dir) && Find(Probes(dev, dir.offset, Count(dir), name), 0) == Ok(k)
    requires Entries(dev, dir)[k].Ok?
    ensures LookupResult(dev, dir, name) == Ok(Entries(dev, dir)[k].value.ino)
  {
    assert Entries(dev, dir)[k] == EntryAt(dev, dir.offset + 32 * k);
  }

  lemma {:induction false} ProbesAgree(dev: Device, offset: nat, n: nat, name: seq<byte>)
    ensures var slots, probes := Slots(dev, offset, n), Probes(dev, offset, n, name);
            forall i :: 0 <= i < n && slots[i].Ok? ==> probes[i] == Ok(slots[i].value.name == name)
  {
    forall i | 0 <= i < n && EntryAt(dev, offset + 32 * i).Ok?
      ensures NamedAt(dev, offset + 32 * i, name) == Ok(EntryAt(dev, offset + 32 * i).value.name == name)
    {
      ListedName(dev, offset + 32 * i, name);
    }
  }
}
