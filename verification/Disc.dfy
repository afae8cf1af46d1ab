/**
 CDVDMAN's `cdrom` driver (src/iop/cdvdman.cpp): one cached sector, a path walk over ISO 9660 directory
 records (ECMA-119 sections 8.4 and 9.1), and byte reads at a handle's position.
 */
module Disc {
  import opened Common

  const SECTOR: nat := 2048
  const PVD_LBA: nat := 16
  const ROOT_RECORD: nat := 156
  const MAX_LEVEL: nat := 8
  const HANDLES: nat := 8
  const ERROR_NOT_FOUND := -2
  const ERROR_BAD_HANDLE := -9
  const ERROR_HANDLES_FULL := -12
  const ERROR_BAD_WHENCE := -22

  /** The disc: 2048 bytes at every logical block address. */
  type Image = nat -> seq<int>

  ghost predicate Plain(disc: Image) { forall lba: nat :: |disc(lba)| == SECTOR }

  datatype Entry = Entry(lba: nat, size: nat, isDirectory: bool)

  // ----- what is on the disc, read plainly -------------------------------------------------------

  function ByteAt(sector: seq<int>, i: nat): nat {
    if i < |sector| then sector[i] % 0x100 else 0
  }

  function ReadLe32(sector: seq<int>, i: nat): nat {
    ByteAt(sector, i) + 0x100 * ByteAt(sector, i + 1) + 0x1_0000 * ByteAt(sector, i + 2) +
      0x100_0000 * ByteAt(sector, i + 3)
  }

  /** The first record's identifier, as many bytes as its length byte says. */
  function Identifier(sector: seq<int>, pos: nat): (id: seq<int>)
    ensures |id| == ByteAt(sector, pos + 32)
  {
    seq(ByteAt(sector, pos + 32), (k: nat) => ByteAt(sector, pos + 33 + k))
  }

  function EntryAt(sector: seq<int>, pos: nat): Entry {
    Entry(ReadLe32(sector, pos + 2), ReadLe32(sector, pos + 10), ByteAt(sector, pos + 25) / 2 % 2 == 1)
  }

  datatype Record = Record(id: seq<int>, entry: Entry)

  /** The records of one sector from `pos`: they end at a zero length or one that crosses the boundary. */
  function Records(sector: seq<int>, pos: nat): seq<Record>
    decreases if pos < SECTOR then SECTOR - pos else 0
  {
    var length := ByteAt(sector, pos);
    if pos >= SECTOR || length == 0 || pos + length > SECTOR then []
    else [Record(Identifier(sector, pos), EntryAt(sector, pos))] + Records(sector, pos + length)
  }

  /** Sector `s` of an extent. */
  function Block(lba: nat, s: nat): nat { (lba + s) % WORD }

  function Sectors(size: nat): nat { (size + SECTOR - 1) % WORD / SECTOR }

  /** A directory's records, sector after sector, from sector `s` of its extent. */
  function Directory(disc: Image, lba: nat, count: nat, s: nat): seq<Record>
    decreases if s < count then count - s else 0
  {
    if s >= count then [] else Records(disc(Block(lba, s)), 0) + Directory(disc, lba, count, s + 1)
  }

  /** A name without its version suffix. */
  function Base(id: seq<int>): seq<int> {
    if id == [] || id[0] == ';' as nat then [] else [id[0]] + Base(id[1..])
  }

  /** A component names a record exactly, or by its base name when it carries no version itself. */
  predicate Names(id: seq<int>, component: seq<int>) {
    component == if ';' as nat in component then id else Base(id)
  }

  function First(records: seq<Record>, component: seq<int>): Option<Entry> {
    if records == [] then None
    else if Names(records[0].id, component) then Some(records[0].entry)
    else First(records[1..], component)
  }

  function Find(disc: Image, lba: nat, size: nat, component: seq<int>): Option<Entry> {
    First(Directory(disc, lba, Sectors(size), 0), component)
  }

  /** A path below a separator, split into its components. */
  function Components(path: seq<int>): (c: seq<seq<int>>)
    ensures |c| >= 1
  {
    if path == [] then [[]]
    else
      var rest := Components(path[1..]);
      if path[0] == '\\' as nat then [[]] + rest else [[path[0]] + rest[0]] + rest[1..]
  }

  /** The plain lookup in the directory tree: directories all the way down to a last component that is a file. */
  function Lookup(disc: Image, lba: nat, size: nat, components: seq<seq<int>>): Option<Entry>
    decreases |components|
  {
    if components == [] || components[0] == [] then None
    else
      match Find(disc, lba, size, components[0])
      case None => None
      case Some(e) =>
        if |components| == 1 then (if e.isDirectory then None else Some(e))
        else if !e.isDirectory then None
        else Lookup(disc, e.lba, e.size, components[1..])
  }

  predicate IsVolume(pvd: seq<int>) {
    && ByteAt(pvd, 1) == 'C' as nat && ByteAt(pvd, 2) == 'D' as nat && ByteAt(pvd, 3) == '0' as nat
    && ByteAt(pvd, 4) == '0' as nat && ByteAt(pvd, 5) == '1' as nat
  }

  /** What a path names on the disc, to eight levels. */
  function Resolve(disc: Image, path: seq<int>): Option<Entry> {
    if path == [] || path[0] != '\\' as nat || !IsVolume(disc(PVD_LBA)) || |Components(path[1..])| > MAX_LEVEL then None
    else Lookup(disc, ReadLe32(disc(PVD_LBA), ROOT_RECORD + 2), ReadLe32(disc(PVD_LBA), ROOT_RECORD + 10),
      Components(path[1..]))
  }

  /** Byte `p` of a file whose extent begins at `lba`. */
  function FileByte(disc: Image, lba: nat, p: nat): int
    requires Plain(disc)
  {
    disc(Block(lba, p / SECTOR))[p % SECTOR]
  }

  // ----- names ----------------------------------------------------------------------------------

  lemma {:induction false} BaseIs(id: seq<int>, k: nat)
    requires k <= |id| && (forall j :: 0 <= j < k ==> id[j] != ';' as nat) && (k < |id| ==> id[k] == ';' as nat)
    ensures Base(id) == id[..k]
  {
    if k > 0 {
      BaseIs(id[1..], k - 1);
      assert id[..k] == [id[0]] + id[1..][..k - 1];
    }
  }

  /** componentMatches. */
  method ComponentMatches(id: seq<int>, component: seq<int>) returns (same: bool)
    ensures same <==> Names(id, component)
  {
    var versioned := false;
    var k := 0;
    while k < |component| && !versioned
      invariant 0 <= k <= |component| && (versioned <==> ';' as nat in component[..k])
    {
      assert component[..k + 1] == component[..k] + [component[k]];
      versioned := component[k] == ';' as nat;
      k := k + 1;
    }
    assert versioned <==> ';' as nat in component by {
      if !versioned { assert component[..k] == component; }
    }
    var length := |id|;
    if !versioned {
      k := 0;
      while k < |id| && id[k] != ';' as nat
        invariant 0 <= k <= |id| && forall j :: 0 <= j < k ==> id[j] != ';' as nat
      {
        k := k + 1;
      }
      BaseIs(id, k);
      length := k;
    }
    assert id[..|id|] == id;
    if length != |component| { return false; }
    k := 0;
    while k < |component|
      invariant 0 <= k <= |component| && component[..k] == id[..k]
    {
      if id[k] != component[k] {
        assert component != id[..length];
        return false;
      }
      k := k + 1;
    }
    assert component[..k] == component;
    return true;
  }

  lemma {:induction false} FirstJoin(a: seq<Record>, b: seq<Record>, component: seq<int>)
    ensures First(a + b, component) == if First(a, component).Some? then First(a, component) else First(b, component)
  {
    if a == [] {
      assert a + b == b;
    } else {
      assert (a + b)[1..] == a[1..] + b;
      FirstJoin(a[1..], b, component);
    }
  }

  /** One sector's records in turn. */
  method ScanSector(sector: seq<int>, component: seq<int>) returns (found: Option<Entry>)
    ensures found == First(Records(sector, 0), component)
  {
    hide Names, EntryAt, Identifier;
    var pos := 0;
    while pos < SECTOR && ByteAt(sector, pos) != 0 && pos + ByteAt(sector, pos) <= SECTOR
      invariant First(Records(sector, 0), component) == First(Records(sector, pos), component)
      decreases SECTOR - pos
    {
      var same := ComponentMatches(Identifier(sector, pos), component);
      assert Records(sector, pos)[1..] == Records(sector, pos + ByteAt(sector, pos));
      if same { return Some(EntryAt(sector, pos)); }
      pos := pos + ByteAt(sector, pos);
    }
    found := None;
  }

  // ----- the driver -----------------------------------------------------------------------------

  datatype Handle = Handle(inUse: bool, lba: nat, size: nat, position: nat)

  /** A signed 32-bit reading of a number. */
  function Signed(n: int): int {
    var w := n % WORD;
    if w >= 0x8000_0000 then w - WORD else w
  }

  class Driver {
    const disc: Image
    /** A drive whose reads never fail. */
    const healthy: bool
    var cacheValid: bool
    var cacheLba: nat
    var cacheData: seq<int>
    var handles: seq<Handle>

    ghost predicate Valid()
      reads this
    {
      && Plain(disc) && |handles| == HANDLES
      && (cacheValid ==> cacheData == disc(cacheLba))
      && forall k :: 0 <= k < HANDLES ==> handles[k].position <= handles[k].size < WORD
    }

    constructor (disc: Image, healthy: bool)
      requires Plain(disc)
      ensures Valid() && forall k :: 0 <= k < 8 ==> !handles[k].inUse
    {
      this.disc, this.healthy := disc, healthy;
      cacheValid, cacheLba, cacheData := false, 0, [];
      handles := seq(HANDLES, i => Handle(false, 0, 0, 0));
    }

    /** One hardware read into the cache's buffer; on failure the buffer holds anything. */
    method ReadSectorBlocking(lba: nat) returns (ok: bool)
      requires Valid() && !cacheValid
      modifies this`cacheData
      ensures Valid() && (healthy ==> ok) && (ok ==> cacheData == disc(lba))
    {
      var attempt := 0;
      while attempt < 8
        invariant healthy ==> attempt == 0
      {
        var accepted: bool := *;
        if accepted || healthy {
          ok := *;
          ok := ok || healthy;
          cacheData := *;
          if ok { cacheData := disc(lba); }
          return;
        }
        attempt := attempt + 1;
      }
      ok := false;
    }

    /** sectorCached: true when the cache now holds the sector. */
    method SectorCached(lba: nat) returns (ok: bool)
      requires Valid()
      modifies this`cacheValid, this`cacheLba, this`cacheData
      ensures Valid() && (healthy ==> ok) && (ok ==> cacheValid && cacheLba == lba && cacheData == disc(lba))
    {
      if cacheValid && cacheLba == lba { return true; }
      cacheValid := false;
      ok := ReadSectorBlocking(lba);
      if !ok { return; }
      cacheLba := lba;
      cacheValid := true;
    }

    /**
     findInDirectory: what it finds is the first record the component names; with no failed read, nothing else is
     missed.
     */
    method FindInDirectory(lba: nat, size: nat, component: seq<int>) returns (found: Option<Entry>)
      requires Valid()
      modifies this`cacheValid, this`cacheLba, this`cacheData
      ensures Valid() && (found.Some? ==> found == Find(disc, lba, size, component))
      ensures healthy ==> found == Find(disc, lba, size, component)
    {
      hide Records, Sectors, Block;
      var sectors := Sectors(size);
      var s := 0;
      while s < sectors
        invariant 0 <= s <= sectors && Valid()
        invariant Find(disc, lba, size, component) == First(Directory(disc, lba, sectors, s), component)
      {
        var ok := SectorCached(Block(lba, s));
        if !ok { return None; }
        ghost var rest := Directory(disc, lba, sectors, s + 1);
        FirstJoin(Records(cacheData, 0), rest, component);
        found := ScanSector(cacheData, component);
        if found.Some? { return; }
        s := s + 1;
      }
      found := None;
    }

    /** resolvePath, over the bytes of a path before its terminator. */
    method ResolvePath(path: seq<int>) returns (found: Option<Entry>)
      requires Valid()
      modifies this`cacheValid, this`cacheLba, this`cacheData
      ensures Valid() && (found.Some? ==> found == Resolve(disc, path))
      ensures healthy ==> found == Resolve(disc, path)
    {
      hide Find, IsVolume, ReadLe32;
      if path == [] || path[0] != '\\' as nat { return None; }
      var ok := SectorCached(PVD_LBA);
      if !ok || !IsVolume(cacheData) { return None; }
      var lba, size := ReadLe32(cacheData, ROOT_RECORD + 2), ReadLe32(cacheData, ROOT_RECORD + 10);
      ghost var l0, s0, all := lba, size, Components(path[1..]);
      var at := 1;
      var level := 0;
      while level < MAX_LEVEL
        invariant 0 <= level <= MAX_LEVEL && 1 <= at <= |path| && Valid()
        invariant |Components(path[at..])| + level == |all|
        invariant Lookup(disc, l0, s0, all) == Lookup(disc, lba, size, Components(path[at..]))
      {
        var start := at;
        while at < |path| && path[at] != '\\' as nat
          invariant start <= at <= |path| && forall j :: start <= j < at ==> path[j] != '\\' as nat
        {
          at := at + 1;
        }
        var component := path[start..at];
        FirstComponent(path, start, at);
        if component == [] { return None; }
        var entry := FindInDirectory(lba, size, component);
        if entry == None { return None; }
        if at == |path| {
          return if entry.value.isDirectory then None else entry;
        }
        if !entry.value.isDirectory { return None; }
        lba, size := entry.value.lba, entry.value.size;
        at := at + 1;
        level := level + 1;
      }
      found := None;
    }

    /** open: the first free handle, at position zero of the file the path names. */
    method Open(path: seq<int>) returns (r: int, fd: nat)
      requires Valid()
      modifies this
      ensures Valid() && r in {0, -2, -12}
      ensures r == 0 ==> fd < 8 && !old(handles[fd]).inUse
      ensures r == 0 ==> forall k :: 0 <= k < fd ==> old(handles[k]).inUse
      ensures r == 0 ==> Resolve(disc, path).Some? && var e := Resolve(disc, path).value;
        e.size < WORD && handles == old(handles)[fd := Handle(true, e.lba, e.size, 0)]
      ensures r != 0 ==> handles == old(handles)
      ensures r == -12 ==> forall k :: 0 <= k < 8 ==> old(handles[k]).inUse
      ensures healthy ==> (r == -2 <==> Resolve(disc, path) == None)
    {
      hide Resolve;
      fd := 0;
      var found := ResolvePath(path);
      if found == None { return ERROR_NOT_FOUND, 0; }
      ResolvedSize(disc, path);
      while fd < HANDLES
        invariant 0 <= fd <= HANDLES && handles == old(handles) && Valid()
        invariant forall k :: 0 <= k < fd ==> handles[k].inUse
      {
        if !handles[fd].inUse {
          handles := handles[fd := Handle(true, found.value.lba, found.value.size, 0)];
          return 0, fd;
        }
        fd := fd + 1;
      }
      return ERROR_HANDLES_FULL, 0;
    }

    method Close(fd: nat) returns (r: int)
      requires Valid()
      modifies this`handles
      ensures Valid()
      ensures r == if fd < 8 && old(handles[fd]).inUse then 0 else -9
      ensures handles == if r == 0 then old(handles)[fd := old(handles[fd]).(inUse := false)] else old(handles)
    {
      if fd >= HANDLES || !handles[fd].inUse { return ERROR_BAD_HANDLE; }
      handles := handles[fd := handles[fd].(inUse := false)];
      r := 0;
    }

    /** read: a prefix of the file from the handle's position, and the position moves by exactly what was read. */
    method Read(fd: nat, buffer: array<int>, size: int) returns (r: int)
      requires Valid() && size <= buffer.Length
      modifies this`cacheValid, this`cacheLba, this`cacheData, this`handles, buffer
      ensures Valid()
      ensures r == -9 <==> !(fd < 8 && old(handles[fd]).inUse)
      ensures r == -9 ==> handles == old(handles) && buffer[..] == old(buffer[..])
      ensures r != -9 ==> 0 <= r <= buffer.Length && var h := old(handles[fd]);
        && r <= Available(h, size) && (healthy ==> r == Available(h, size))
        && (forall k :: 0 <= k < r ==> buffer[k] == FileByte(disc, h.lba, h.position + k))
        && (forall k :: r <= k < buffer.Length ==> buffer[k] == old(buffer[k]))
        && handles == old(handles)[fd := h.(position := h.position + r)]
    {
      if fd >= HANDLES || !handles[fd].inUse { return ERROR_BAD_HANDLE; }
      var h := handles[fd];
      var length := Available(h, size);
      var done := 0;
      while done < length
        invariant 0 <= done <= length && Valid() && handles == old(handles)
        invariant forall k :: 0 <= k < done ==> buffer[k] == FileByte(disc, h.lba, h.position + k)
        invariant forall k :: done <= k < buffer.Length ==> buffer[k] == old(buffer[k])
      {
        var position := h.position + done;
        var offset := position % SECTOR;
        var ok := SectorCached(Block(h.lba, position / SECTOR));
        if !ok { break; }
        var chunk := if SECTOR - offset > length - done then length - done else SECTOR - offset;
        CopyOut(buffer, done, cacheData, offset, chunk);
        forall k | done <= k < done + chunk
          ensures buffer[k] == FileByte(disc, h.lba, h.position + k)
        {
          SameSector(position, k - done);
        }
        done := done + chunk;
      }
      handles := handles[fd := h.(position := h.position + done)];
      r := done;
    }

    /** lseek: the position asked for, in signed 32-bit arithmetic, held between zero and the size. */
    method Lseek(fd: nat, offset: int, whence: int) returns (r: int)
      requires Valid()
      modifies this`handles
      ensures Valid()
      ensures !(fd < 8 && old(handles[fd]).inUse) ==> r == -9 && handles == old(handles)
      ensures fd < 8 && old(handles[fd]).inUse && whence !in {0, 1, 2} ==>
        r == -22 && handles == old(handles)
      ensures fd < 8 && old(handles[fd]).inUse && whence in {0, 1, 2} ==>
        && r == SeekResult(old(handles[fd]), offset, whence)
        && handles == old(handles)[fd := old(handles[fd]).(position := r % WORD)]
    {
      if fd >= HANDLES || !handles[fd].inUse { return ERROR_BAD_HANDLE; }
      var h := handles[fd];
      var base := 0;
      if whence == 1 {
        base := Signed(h.position);
      } else if whence == 2 {
        base := Signed(h.size);
      } else if whence != 0 {
        return ERROR_BAD_WHENCE;
      }
      var position := Signed(base + offset);
      if position < 0 { position := 0; }
      if position > Signed(h.size) { position := Signed(h.size); }
      SeekStays(h, offset, whence);
      handles := handles[fd := h.(position := position % WORD)];
      r := position;
    }
  }

  /** How many bytes a read may give: no more than asked, nor than the file has left. */
  function Available(h: Handle, size: int): (n: nat)
    requires h.position <= h.size
    ensures h.position + n <= h.size && (size >= 0 ==> n <= size)
    ensures n == 0 || n == size || h.position + n == h.size
    ensures n == 0 ==> size <= 0 || h.position == h.size
  {
    var length := if size < 0 then 0 else size;
    if length > h.size - h.position then h.size - h.position else length
  }

  function Base32(h: Handle, whence: int): int {
    if whence == 1 then Signed(h.position) else if whence == 2 then Signed(h.size) else 0
  }

  function SeekResult(h: Handle, offset: int, whence: int): int {
    var wanted := Signed(Base32(h, whence) + offset);
    var floor := if wanted < 0 then 0 else wanted;
    if floor > Signed(h.size) then Signed(h.size) else floor
  }

  /** Whatever is asked, the new position does not exceed the size. */
  lemma SeekStays(h: Handle, offset: int, whence: int)
    requires h.position <= h.size < WORD
    ensures SeekResult(h, offset, whence) % WORD <= h.size
  {
  }

  function Clamp(p: int, size: nat): nat {
    if p < 0 then 0 else if p > size then size else p
  }

  function Origin(h: Handle, whence: int): int {
    if whence == 1 then h.position else if whence == 2 then h.size else 0
  }

  /**
   The seek a caller expects, an unbounded sum held between zero and the size, is what one call gives exactly when
   the sum stays below 2^31; in a file of 2^31 bytes or more every call lands on the end, so
   exactly when the end is where the sum leads.
   */
  lemma SeekIsClampIff(h: Handle, offset: int, whence: int)
    requires h.position <= h.size < WORD && whence in {0, 1, 2} && -0x8000_0000 <= offset < 0x8000_0000
    ensures SeekResult(h, offset, whence) % WORD == Clamp(Origin(h, whence) + offset, h.size) <==>
      if h.size < 0x8000_0000 then Origin(h, whence) + offset < 0x8000_0000
      else Origin(h, whence) + offset >= h.size
    // Where it lands otherwise.
    ensures h.size < 0x8000_0000 <= Origin(h, whence) + offset ==> SeekResult(h, offset, whence) == 0
    ensures h.size >= 0x8000_0000 ==> SeekResult(h, offset, whence) == h.size - WORD
  {
    if h.size < 0x8000_0000 {
      SignedSmall(h.size);
      SignedSmall(h.position);
      if Origin(h, whence) + offset < 0x8000_0000 {
        SignedSmall(Origin(h, whence) + offset);
      } else {
        SignedWraps(Origin(h, whence) + offset);
      }
      hide Signed;
      assert Base32(h, whence) == Origin(h, whence);
    } else {
      SignedWraps(h.size);
      hide Base32;
    }
  }

  lemma SignedSmall(n: int)
    requires -0x8000_0000 <= n < 0x8000_0000
    ensures Signed(n) == n
  {
  }

  lemma SignedWraps(n: int)
    requires 0x8000_0000 <= n < WORD
    ensures Signed(n) == n - WORD
  {
  }

  /** Just below 2^31 bytes, one past the end is the start; relative to the position likewise. */
  lemma SeekPastTheEnd(h: Handle)
    requires h.size == 0x7FFF_FFFF && h.position == 0x5000_0000
    ensures SeekResult(h, 1, 2) == 0 != Clamp(Origin(h, 2) + 1, h.size)
    ensures SeekResult(h, 0x7000_0000, 1) == 0 != Clamp(Origin(h, 1) + 0x7000_0000, h.size)
  {
    SeekIsClampIff(h, 1, 2);
    SeekIsClampIff(h, 0x7000_0000, 1);
  }

  /** At 2^31 bytes a seek to the start lands on the end, and answers a negative position. */
  lemma SeekInLargeFile(h: Handle)
    requires h.position <= h.size == 0x8000_0000
    ensures SeekResult(h, 0, 0) == -0x8000_0000
    ensures SeekResult(h, 0, 0) % WORD == h.size != Clamp(Origin(h, 0) + 0, h.size)
  {
    SeekIsClampIff(h, 0, 0);
  }

  lemma SameSector(p: nat, k: nat)
    requires p % SECTOR + k < SECTOR
    ensures (p + k) / SECTOR == p / SECTOR && (p + k) % SECTOR == p % SECTOR + k
  {
    var q := p / SECTOR;
    assert p + k == q * SECTOR + (p % SECTOR + k);
  }

  /** The inner copy. */
  method CopyOut(buffer: array<int>, at: nat, data: seq<int>, offset: nat, n: nat)
    requires at + n <= buffer.Length && offset + n <= |data|
    modifies buffer
    ensures forall k :: 0 <= k < buffer.Length ==>
      buffer[k] == if at <= k < at + n then data[offset + (k - at)] else old(buffer[k])
  {
    var k := 0;
    while k < n
      invariant 0 <= k <= n
      invariant forall j :: 0 <= j < buffer.Length ==>
        buffer[j] == if at <= j < at + k then data[offset + (j - at)] else old(buffer[j])
    {
      buffer[at + k] := data[offset + k];
      k := k + 1;
    }
  }

  /** A size read from a record is a 32-bit word. */
  lemma ResolvedSize(disc: Image, path: seq<int>)
    ensures Resolve(disc, path).Some? ==> Resolve(disc, path).value.size < WORD
  {
    if Resolve(disc, path).Some? {
      LookupSize(disc, ReadLe32(disc(PVD_LBA), ROOT_RECORD + 2), ReadLe32(disc(PVD_LBA), ROOT_RECORD + 10),
        Components(path[1..]));
    }
  }

  lemma {:induction false} LookupSize(disc: Image, lba: nat, size: nat, components: seq<seq<int>>)
    requires Lookup(disc, lba, size, components).Some?
    ensures Lookup(disc, lba, size, components).value.size < WORD
    decreases |components|
  {
    var e := Find(disc, lba, size, components[0]);
    DirectorySizes(disc, lba, Sectors(size), 0);
    FirstSize(Directory(disc, lba, Sectors(size), 0), components[0]);
    if |components| > 1 {
      LookupSize(disc, e.value.lba, e.value.size, components[1..]);
    }
  }

  ghost predicate WordSizes(s: seq<Record>) {
    forall i :: 0 <= i < |s| ==> s[i].entry.size < WORD
  }

  lemma {:induction false} FirstSize(records: seq<Record>, component: seq<int>)
    requires WordSizes(records) && First(records, component).Some?
    ensures First(records, component).value.size < WORD
  {
    if !Names(records[0].id, component) { FirstSize(records[1..], component); }
  }

  lemma {:induction false} RecordSizes(sector: seq<int>, pos: nat)
    ensures WordSizes(Records(sector, pos))
    decreases if pos < SECTOR then SECTOR - pos else 0
  {
    var length := ByteAt(sector, pos);
    if !(pos >= SECTOR || length == 0 || pos + length > SECTOR) { RecordSizes(sector, pos + length); }
  }

  lemma {:induction false} DirectorySizes(disc: Image, lba: nat, count: nat, s: nat)
    ensures WordSizes(Directory(disc, lba, count, s))
    decreases if s < count then count - s else 0
  {
    if s < count {
      RecordSizes(disc(Block(lba, s)), 0);
      DirectorySizes(disc, lba, count, s + 1);
    }
  }

  /** Scanning to the next separator finds the first component and leaves the rest. */
  lemma {:induction false} FirstComponent(path: seq<int>, start: nat, at: nat)
    requires start <= at <= |path| && (forall j :: start <= j < at ==> path[j] != '\\' as nat)
    requires at < |path| ==> path[at] == '\\' as nat
    ensures Components(path[start..])[0] == path[start..at]
    ensures at == |path| ==> |Components(path[start..])| == 1
    ensures at < |path| ==> Components(path[start..])[1..] == Components(path[at + 1..])
    decreases at - start
  {
    var rest := path[start..];
    if start < at {
      FirstComponent(path, start + 1, at);
      assert rest[1..] == path[start + 1..];
      assert path[start..at] == [path[start]] + path[start + 1..at];
    } else if at < |path| {
      assert rest[1..] == path[at + 1..];
    }
  }

  // ----- a disc as ECMA-119 lays it out ------------------------------------------------------------

  function LeWord(v: nat): seq<int> {
    [v % 0x100, v / 0x100 % 0x100, v / 0x1_0000 % 0x100, v / 0x100_0000 % 0x100]
  }

  function BeWord(v: nat): seq<int> {
    [v / 0x100_0000 % 0x100, v / 0x1_0000 % 0x100, v / 0x100 % 0x100, v % 0x100]
  }

  /** What a directory record says (section 9.1): an identifier, an extent, its length in bytes, and flags. */
  datatype Filed = Filed(id: seq<int>, lba: nat, size: nat, flags: nat, date: seq<int>) {
    predicate Fields() {
      && 1 <= |id| <= 221 && |date| == 7 && lba < 0x1_0000_0000 && size < 0x1_0000_0000 && flags < 0x100
      && forall k :: 0 <= k < |id| ==> 0 <= id[k] < 0x100
    }
    /** Bit 1 of the file flags. */
    predicate IsDirectory() { flags / 2 % 2 == 1 }
    function Length(): nat { 33 + |id| + if |id| % 2 == 0 then 1 else 0 }
    /** Numbers are recorded least and then most significant byte first; an even identifier is padded. */
    function Bytes(): seq<int> { Head() + Rest() + id + if |id| % 2 == 0 then [0] else [] }
    function Head(): seq<int> { [Length(), 0] + LeWord(lba) + BeWord(lba) + LeWord(size) + BeWord(size) }
    function Rest(): seq<int> { date + [flags, 0, 0, 1, 0, 0, 1, |id|] }
  }

  function RecordBytes(fs: seq<Filed>): seq<int> {
    if fs == [] then [] else fs[0].Bytes() + RecordBytes(fs[1..])
  }

  /** A sector of a directory: its records, and zeros to its end (section 6.8.1.1). */
  ghost predicate HoldsRecords(sector: seq<int>, fs: seq<Filed>) {
    && |sector| == 2048 && |RecordBytes(fs)| <= 2048 && (forall i :: 0 <= i < |fs| ==> fs[i].Fields())
    && sector[..|RecordBytes(fs)|] == RecordBytes(fs) && forall k :: |RecordBytes(fs)| <= k < 2048 ==> sector[k] == 0
  }

  /** A directory whose extent holds `sectors`, each a list of records. */
  ghost predicate Laid(disc: Image, dir: Filed, sectors: seq<seq<Filed>>) {
    && dir.Fields() && dir.size <= 0xFFFF_F800 && |sectors| == (dir.size + 2047) / 2048
    && forall s :: 0 <= s < |sectors| ==> HoldsRecords(disc((dir.lba + s) % 0x1_0000_0000), sectors[s])
  }

  function Flat(sectors: seq<seq<Filed>>): seq<Filed> {
    if sectors == [] then [] else sectors[0] + Flat(sectors[1..])
  }

  /** A component is a record's identifier, or what comes before its version number. */
  ghost predicate Called(id: seq<int>, component: seq<int>) {
    component == id
    || (';' as nat !in component && exists k :: 0 <= k < |id| && id[k] == ';' as nat && id[..k] == component)
  }

  /** `f` is the first of the records a component names. */
  ghost predicate FirstCalled(fs: seq<Filed>, component: seq<int>, f: Filed) {
    exists i :: 0 <= i < |fs| && fs[i] == f && Called(f.id, component)
      && forall j :: 0 <= j < i ==> !Called(fs[j].id, component)
  }

  /** The tree from directory `dir` on has `file` under the components. */
  ghost predicate Leads(disc: Image, dir: Filed, components: seq<seq<int>>, file: Filed)
    decreases |components|
  {
    components != [] && components[0] != []
    && exists sectors, f :: Laid(disc, dir, sectors) && FirstCalled(Flat(sectors), components[0], f)
         && if |components| == 1 then f == file && !f.IsDirectory()
            else f.IsDirectory() && Leads(disc, f, components[1..], file)
  }

  /** A path: each component behind a separator. */
  function Joined(components: seq<seq<int>>): seq<int> {
    if components == [] then [] else ['\\' as nat] + components[0] + Joined(components[1..])
  }

  /** The primary volume descriptor at block 16 (section 8.4): its standard identifier, and the root's record at 156. */
  ghost predicate Volume(disc: Image, root: Filed) {
    var pvd := disc(16);
    && |pvd| == 2048 && pvd[1..6] == [0x43, 0x44, 0x30, 0x30, 0x31]
    && root.Fields() && |root.id| == 1 && pvd[156..190] == root.Bytes()
  }

  // ----- what the driver reads of it -----------------------------------------------------------------

  lemma WordReads(sector: seq<int>, at: nat, v: nat)
    requires at + 4 <= |sector| && sector[at..at + 4] == LeWord(v) && v < 0x1_0000_0000
    ensures ReadLe32(sector, at) == v
  {
    var b := sector[at..at + 4];
    assert sector[at] == b[0] && sector[at + 1] == b[1] && sector[at + 2] == b[2] && sector[at + 3] == b[3];
    BytesOf(v);
  }

  lemma BytesOf(v: nat)
    requires v < 0x1_0000_0000
    ensures v == v % 0x100 + 0x100 * (v / 0x100 % 0x100) + 0x1_0000 * (v / 0x1_0000 % 0x100)
                 + 0x100_0000 * (v / 0x100_0000 % 0x100)
  {
    var q, r := v / 0x100, v / 0x1_0000;
    assert q / 0x100 == r && r / 0x100 == v / 0x100_0000;
    assert v == 0x100 * q + v % 0x100 && q == 0x100 * r + q % 0x100 && r == 0x100 * (r / 0x100) + r % 0x100;
  }

  /** Where a record's parts lie in a sector. */
  lemma RecordParts(sector: seq<int>, pos: nat, head: seq<int>, rest: seq<int>, id: seq<int>, pad: seq<int>)
    requires |head| == 18 && |rest| == 15
    requires var b := head + rest + id + pad; pos + |b| <= |sector| && sector[pos..pos + |b|] == b
    ensures sector[pos] == head[0]
    ensures sector[pos + 2..pos + 6] == head[2..6] && sector[pos + 10..pos + 14] == head[10..14]
    ensures sector[pos + 25] == rest[7] && sector[pos + 32] == rest[14]
    ensures forall k :: 0 <= k < |id| ==> sector[pos + 33 + k] == id[k]
  {
    var b := head + rest + id + pad;
    forall k | 0 <= k < |b|
      ensures sector[pos + k] == b[k]
    {
      assert sector[pos..pos + |b|][k] == sector[pos + k];
    }
    assert sector[pos] == sector[pos + 0] == b[0];
    forall k | 0 <= k < |id|
      ensures sector[pos + 33 + k] == id[k]
    {
      assert sector[pos + (33 + k)] == b[33 + k] == id[k];
    }
    WordOfParts(sector, pos, b, head, 2);
    WordOfParts(sector, pos, b, head, 10);
  }

  lemma WordOfParts(sector: seq<int>, pos: nat, b: seq<int>, head: seq<int>, at: nat)
    requires at + 4 <= |head| <= |b| && b[..|head|] == head && pos + |b| <= |sector|
    requires forall k :: 0 <= k < |b| ==> sector[pos + k] == b[k]
    ensures sector[pos + at..pos + at + 4] == head[at..at + 4]
  {
    var x, y := sector[pos + at..pos + at + 4], head[at..at + 4];
    forall k | 0 <= k < |y|
      ensures x[k] == y[k]
    {
      assert sector[pos + (at + k)] == b[at + k] == b[..|head|][at + k];
    }
  }

  /** A record reads back as what it was written with. */
  lemma RecordReads(sector: seq<int>, pos: nat, f: Filed)
    requires f.Fields() && pos + f.Length() <= |sector| && sector[pos..pos + f.Length()] == f.Bytes()
    ensures ByteAt(sector, pos) == f.Length() <= 255 && Identifier(sector, pos) == f.id
    ensures EntryAt(sector, pos) == Entry(f.lba, f.size, f.IsDirectory())
  {
    BytesLength(f);
    HeadIs(f);
    RestIs(f);
    hide LeWord, Filed.Head, Filed.Rest, EntryAt, Identifier, ByteAt;
    RecordParts(sector, pos, f.Head(), f.Rest(), f.id, if |f.id| % 2 == 0 then [0] else []);
    ByteIs(sector, pos, f.Length());
    IdentifierIs(sector, pos, f.id);
    EntryIs(sector, pos, f.lba, f.size, f.flags);
  }

  lemma ByteIs(sector: seq<int>, at: nat, v: nat)
    requires at < |sector| && sector[at] == v < 0x100
    ensures ByteAt(sector, at) == v
  {
  }

  lemma EntryIs(sector: seq<int>, pos: nat, lba: nat, size: nat, flags: nat)
    requires pos + 33 <= |sector| && lba < 0x1_0000_0000 && size < 0x1_0000_0000 && flags < 0x100
    requires sector[pos + 2..pos + 6] == LeWord(lba) && sector[pos + 10..pos + 14] == LeWord(size)
    requires sector[pos + 25] == flags
    ensures EntryAt(sector, pos) == Entry(lba, size, flags / 2 % 2 == 1)
  {
    WordReads(sector, pos + 2, lba);
    WordReads(sector, pos + 10, size);
    ByteIs(sector, pos + 25, flags);
    hide ReadLe32, ByteAt, LeWord;
  }

  lemma HeadIs(f: Filed)
    ensures var h := f.Head();
      |h| == 18 && h[0] == f.Length() && h[2..6] == LeWord(f.lba) && h[10..14] == LeWord(f.size)
  {
  }

  lemma RestIs(f: Filed)
    requires |f.date| == 7
    ensures |f.Rest()| == 15 && f.Rest()[7] == f.flags && f.Rest()[14] == |f.id|
  {
  }

  lemma IdentifierIs(sector: seq<int>, pos: nat, id: seq<int>)
    requires pos + 33 + |id| <= |sector| && sector[pos + 32] == |id| < 0x100
    requires forall k :: 0 <= k < |id| ==> sector[pos + 33 + k] == id[k] && 0 <= id[k] < 0x100
    ensures Identifier(sector, pos) == id
  {
    var read := Identifier(sector, pos);
    forall k | 0 <= k < |id|
      ensures read[k] == id[k]
    {
      assert read[k] == ByteAt(sector, pos + 33 + k);
    }
    assert read == id;
  }

  /** The records a driver's list of entries stands for. */
  function Recorded(fs: seq<Filed>): (r: seq<Record>)
    ensures |r| == |fs|
    ensures forall i :: 0 <= i < |fs| ==> r[i] == Record(fs[i].id, Entry(fs[i].lba, fs[i].size, fs[i].IsDirectory()))
  {
    seq(|fs|, i requires 0 <= i < |fs| => Record(fs[i].id, Entry(fs[i].lba, fs[i].size, fs[i].IsDirectory())))
  }

  lemma BytesLength(f: Filed)
    requires f.Fields()
    ensures |f.Bytes()| == f.Length()
  {
  }

  /** A sector's records read back in order, up to the padding. */
  lemma {:induction false} RecordsRead(sector: seq<int>, fs: seq<Filed>, pos: nat)
    requires |sector| == 2048 && (forall i :: 0 <= i < |fs| ==> fs[i].Fields())
    requires pos + |RecordBytes(fs)| <= 2048 && sector[pos..pos + |RecordBytes(fs)|] == RecordBytes(fs)
    requires forall k :: pos + |RecordBytes(fs)| <= k < 2048 ==> sector[k] == 0
    ensures Records(sector, pos) == Recorded(fs)
    decreases |fs|
  {
    hide EntryAt, Identifier, Records, RecordBytes, Filed.Bytes;
    RecordBytesAre(fs);
    if fs == [] {
      NextRecord(sector, pos);
    } else {
      RecordHere(sector, fs[0], RecordBytes(fs[1..]), pos);
      RecordsRead(sector, fs[1..], pos + fs[0].Length());
      assert Recorded(fs) == [Recorded(fs)[0]] + Recorded(fs[1..]);
    }
  }

  lemma RecordHere(sector: seq<int>, f: Filed, rest: seq<int>, pos: nat)
    requires |sector| == 2048 && f.Fields() && pos + |f.Bytes() + rest| <= 2048
    requires sector[pos..pos + |f.Bytes() + rest|] == f.Bytes() + rest
    ensures |f.Bytes()| == f.Length() && sector[pos + f.Length()..pos + f.Length() + |rest|] == rest
    ensures Records(sector, pos) ==
      [Record(f.id, Entry(f.lba, f.size, f.IsDirectory()))] + Records(sector, pos + f.Length())
  {
    BytesLength(f);
    hide Records, Filed.Bytes, Filed.Length, Filed.Fields, Filed.IsDirectory;
    SplitAt(sector, pos, f.Bytes(), rest);
    RecordAt(sector, f, pos);
  }

  lemma RecordAt(sector: seq<int>, f: Filed, pos: nat)
    requires |sector| == 2048 && f.Fields() && pos + f.Length() <= 2048 && sector[pos..pos + f.Length()] == f.Bytes()
    ensures Records(sector, pos) ==
      [Record(f.id, Entry(f.lba, f.size, f.IsDirectory()))] + Records(sector, pos + f.Length())
  {
    LengthPositive(f);
    hide EntryAt, Identifier, Records, ByteAt, Filed.Bytes, Filed.Length, Filed.Fields, Filed.IsDirectory;
    RecordReads(sector, pos, f);
    NextRecord(sector, pos);
  }

  lemma LengthPositive(f: Filed)
    ensures f.Length() > 0
  {
  }

  lemma RecordBytesAre(fs: seq<Filed>)
    ensures RecordBytes(fs) == if fs == [] then [] else fs[0].Bytes() + RecordBytes(fs[1..])
  {
  }

  lemma NextRecord(sector: seq<int>, pos: nat)
    ensures Records(sector, pos) ==
      if pos >= SECTOR || ByteAt(sector, pos) == 0 || pos + ByteAt(sector, pos) > SECTOR then []
      else [Record(Identifier(sector, pos), EntryAt(sector, pos))] + Records(sector, pos + ByteAt(sector, pos))
  {
  }

  lemma SplitAt(sector: seq<int>, pos: nat, a: seq<int>, b: seq<int>)
    requires pos + |a| + |b| <= |sector| && sector[pos..pos + |a + b|] == a + b
    ensures sector[pos..pos + |a|] == a && sector[pos + |a|..pos + |a| + |b|] == b
  {
    var all := sector[pos..pos + |a + b|];
    forall k | 0 <= k < |a|
      ensures sector[pos..pos + |a|][k] == a[k]
    {
      assert all[k] == sector[pos + k];
    }
    forall k | 0 <= k < |b|
      ensures sector[pos + |a|..pos + |a| + |b|][k] == b[k]
    {
      assert all[|a| + k] == sector[pos + (|a| + k)];
    }
  }

  /** A directory's records read back sector after sector. */
  lemma {:induction false} DirectoryReads(disc: Image, dir: Filed, sectors: seq<seq<Filed>>, s: nat)
    requires Laid(disc, dir, sectors) && s <= |sectors|
    ensures Directory(disc, dir.lba, |sectors|, s) == Recorded(Flat(sectors[s..]))
    decreases |sectors| - s
  {
    hide Records, RecordBytes;
    if s < |sectors| {
      var block := disc((dir.lba + s) % 0x1_0000_0000);
      assert HoldsRecords(block, sectors[s]);
      assert block[0..0 + |RecordBytes(sectors[s])|] == block[..|RecordBytes(sectors[s])|];
      RecordsRead(block, sectors[s], 0);
      DirectoryReads(disc, dir, sectors, s + 1);
      assert sectors[s..][1..] == sectors[s + 1..] && sectors[s..][0] == sectors[s];
      assert Recorded(sectors[s] + Flat(sectors[s + 1..])) == Recorded(sectors[s]) + Recorded(Flat(sectors[s + 1..]));
    }
  }

  lemma NamesIsCalled(id: seq<int>, component: seq<int>)
    ensures Names(id, component) <==> Called(id, component)
  {
    var k := 0;
    while k < |id| && id[k] != ';' as nat
      invariant 0 <= k <= |id| && forall j :: 0 <= j < k ==> id[j] != ';' as nat
    {
      k := k + 1;
    }
    BaseIs(id, k);
    if Called(id, component) && component != id {
      var l :| 0 <= l < |id| && id[l] == ';' as nat && id[..l] == component;
      assert forall j :: 0 <= j < l ==> id[j] in id[..l];
    }
    if k == |id| { assert id[..k] == id; }
  }

  /** The first record in order that a component names is the one found, and none if there is none. */
  lemma {:induction false} FirstIs(fs: seq<Filed>, component: seq<int>)
    ensures forall f :: FirstCalled(fs, component, f) ==>
      First(Recorded(fs), component) == Some(Entry(f.lba, f.size, f.IsDirectory()))
    ensures (forall f :: f in fs ==> !Called(f.id, component)) ==> First(Recorded(fs), component) == None
  {
    hide Called, Names, FirstCalled, Recorded, First;
    FirstStep(fs, component);
    if fs != [] {
      FirstIs(fs[1..], component);
      assert fs == [fs[0]] + fs[1..];
      forall f | FirstCalled(fs, component, f)
        ensures First(Recorded(fs), component) == Some(Entry(f.lba, f.size, f.IsDirectory()))
      {
        CalledLater(fs, component, f);
      }
    }
    forall f | FirstCalled(fs, component, f)
      ensures fs != []
    {
      CalledSome(fs, component, f);
    }
  }

  lemma FirstStep(fs: seq<Filed>, component: seq<int>)
    ensures First(Recorded(fs), component) ==
      if fs == [] then None
      else if Called(fs[0].id, component) then Some(Entry(fs[0].lba, fs[0].size, fs[0].IsDirectory()))
      else First(Recorded(fs[1..]), component)
  {
    hide Called, Names;
    if fs != [] {
      NamesIsCalled(fs[0].id, component);
      var r, t := Recorded(fs), Recorded(fs[1..]);
      assert forall i :: 0 <= i < |t| ==> r[1..][i] == r[i + 1] == t[i];
      assert r[1..] == t;
    }
  }

  lemma CalledSome(fs: seq<Filed>, component: seq<int>, f: Filed)
    requires FirstCalled(fs, component, f)
    ensures fs != []
  {
  }

  lemma CalledLater(fs: seq<Filed>, component: seq<int>, f: Filed)
    requires fs != [] && FirstCalled(fs, component, f)
    ensures if Called(fs[0].id, component) then f == fs[0] else FirstCalled(fs[1..], component, f)
  {
    hide Called;
    var i :| 0 <= i < |fs| && fs[i] == f && Called(f.id, component)
      && forall j :: 0 <= j < i ==> !Called(fs[j].id, component);
    if i > 0 {
      var t := fs[1..];
      assert t[i - 1] == f;
      assert forall j :: 0 <= j < i - 1 ==> t[j] == fs[j + 1];
      assert !Called(fs[0].id, component);
    }
  }

  /** In a directory laid out from records, each component finds the extent its first record was written with. */
  lemma DirectoryFinds(disc: Image, dir: Filed, sectors: seq<seq<Filed>>, component: seq<int>)
    requires Laid(disc, dir, sectors)
    ensures forall f :: FirstCalled(Flat(sectors), component, f) ==>
      Find(disc, dir.lba, dir.size, component) == Some(Entry(f.lba, f.size, f.IsDirectory()))
    ensures (forall f :: f in Flat(sectors) ==> !Called(f.id, component)) ==>
      Find(disc, dir.lba, dir.size, component) == None
  {
    hide FirstCalled, Called, First, Directory;
    assert sectors[0..] == sectors;
    DirectoryReads(disc, dir, sectors, 0);
    FirstIs(Flat(sectors), component);
    assert Sectors(dir.size) == |sectors|;
  }

  lemma {:induction false} LookupFinds(disc: Image, dir: Filed, components: seq<seq<int>>, file: Filed)
    requires Leads(disc, dir, components, file)
    ensures Lookup(disc, dir.lba, dir.size, components) == Some(Entry(file.lba, file.size, false))
    decreases |components|
  {
    hide Find, Laid, FirstCalled, Flat;
    var sectors, f :| Laid(disc, dir, sectors) && FirstCalled(Flat(sectors), components[0], f)
      && if |components| == 1 then f == file && !f.IsDirectory()
         else f.IsDirectory() && Leads(disc, f, components[1..], file);
    DirectoryFinds(disc, dir, sectors, components[0]);
    if |components| > 1 { LookupFinds(disc, f, components[1..], file); }
  }

  /** A path's components come apart as they were joined. */
  lemma {:induction false} ComponentsOf(components: seq<seq<int>>)
    requires components != [] && forall c :: c in components ==> '\\' as nat !in c
    ensures Joined(components) != [] && Joined(components)[0] == '\\' as nat
    ensures Components(Joined(components)[1..]) == components
  {
    hide Components, Joined;
    JoinedIs(components);
    var c, rest := components[0], Joined(components[1..]);
    assert c in components;
    if |components| > 1 {
      assert forall d :: d in components[1..] ==> d in components;
      ComponentsOf(components[1..]);
      ComponentAhead(c, rest, components[1..]);
    } else {
      assert components[1..] == [];
      LastComponent(c);
      assert c + [] == c && components == [c];
    }
    assert components == [c] + components[1..];
  }

  lemma JoinedIs(components: seq<seq<int>>)
    requires components != []
    ensures Joined(components) != [] && Joined(components)[0] == '\\' as nat
    ensures Joined(components)[1..] == components[0] + Joined(components[1..]) && Joined([]) == []
  {
    Behind('\\' as nat, components[0], Joined(components[1..]));
  }

  lemma Behind(x: int, a: seq<int>, b: seq<int>)
    ensures ([x] + a + b)[0] == x && ([x] + a + b)[1..] == a + b
  {
  }

  lemma LastComponent(c: seq<int>)
    requires '\\' as nat !in c
    ensures Components(c) == [c]
  {
    assert c[0..] == c && c[0..|c|] == c;
    assert forall j :: 0 <= j < |c| ==> c[j] in c;
    FirstComponent(c, 0, |c|);
  }

  lemma ComponentAhead(c: seq<int>, rest: seq<int>, others: seq<seq<int>>)
    requires '\\' as nat !in c && rest != [] && rest[0] == '\\' as nat && Components(rest[1..]) == others
    ensures Components(c + rest) == [c] + others
  {
    hide Components;
    var path := c + rest;
    assert forall j :: 0 <= j < |c| ==> path[j] == c[j] && c[j] in c;
    FirstComponent(path, 0, |c|);
    assert path[0..] == path && path[0..|c|] == c && path[|c| + 1..] == rest[1..];
    assert Components(path) == [Components(path)[0]] + Components(path)[1..];
  }

  /** A file up to eight levels down, on a disc laid out as the standard says, resolves to its extent and length. */
  lemma ResolveFinds(disc: Image, root: Filed, components: seq<seq<int>>, file: Filed)
    requires Volume(disc, root) && Leads(disc, root, components, file) && |components| <= 8
    requires forall c :: c in components ==> '\\' as nat !in c
    ensures Resolve(disc, Joined(components)) == Some(Entry(file.lba, file.size, false))
  {
    hide Joined, Components, Lookup, Leads;
    LeadsSome(disc, root, components, file);
    ComponentsOf(components);
    LookupFinds(disc, root, components, file);
    VolumeReads(disc, root);
  }

  lemma LeadsSome(disc: Image, dir: Filed, components: seq<seq<int>>, file: Filed)
    requires Leads(disc, dir, components, file)
    ensures components != []
  {
  }

  /** The volume descriptor is known by its identifier, and the root's record reads back from it. */
  lemma VolumeReads(disc: Image, root: Filed)
    requires Volume(disc, root)
    ensures IsVolume(disc(PVD_LBA))
    ensures ReadLe32(disc(PVD_LBA), ROOT_RECORD + 2) == root.lba
    ensures ReadLe32(disc(PVD_LBA), ROOT_RECORD + 10) == root.size
  {
    var pvd := disc(16);
    var b := pvd[1..6];
    assert pvd[1] == b[0] && pvd[2] == b[1] && pvd[3] == b[2] && pvd[4] == b[3] && pvd[5] == b[4];
    BytesLength(root);
    RecordReads(pvd, 156, root);
  }

  /** What a directory tree does not have is not found: a name missing, a directory last, or a file on the way. */
  lemma LookupMisses(disc: Image, dir: Filed, sectors: seq<seq<Filed>>, components: seq<seq<int>>)
    requires Laid(disc, dir, sectors) && components != []
    ensures (forall f :: f in Flat(sectors) ==> !Called(f.id, components[0])) ==>
      Lookup(disc, dir.lba, dir.size, components) == None
    ensures forall f :: FirstCalled(Flat(sectors), components[0], f) && (f.IsDirectory() <==> |components| == 1) ==>
      Lookup(disc, dir.lba, dir.size, components) == None
  {
    hide Find, FirstCalled, Called, Flat, Laid;
    DirectoryFinds(disc, dir, sectors, components[0]);
  }

  /** Nor is a path that does not start at the root, goes down more than eight levels, or is on no volume. */
  lemma ResolveRefuses(disc: Image, path: seq<int>)
    requires path == [] || path[0] != '\\' as nat || |Components(path[1..])| > 8
      || exists k :: 1 <= k < 6 && |disc(16)| >= 6 && 0 <= disc(16)[k] < 0x100
           && disc(16)[k] != [0x43, 0x44, 0x30, 0x30, 0x31][k - 1]
    ensures Resolve(disc, path) == None
  {
    hide Components, Lookup;
  }

  /** No path with an empty component names a file. */
  lemma {:induction false} EmptyComponent(disc: Image, lba: nat, size: nat, components: seq<seq<int>>)
    requires [] in components
    ensures Lookup(disc, lba, size, components) == None
    decreases |components|
  {
    hide Find;
    if components[0] != [] {
      var e := Find(disc, lba, size, components[0]);
      assert components == [components[0]] + components[1..];
      if e.Some? { EmptyComponent(disc, e.value.lba, e.value.size, components[1..]); }
    }
  }

  /** A byte of a file is where its extent puts it. */
  lemma FileByteIs(disc: Image, f: Filed, p: nat)
    requires Plain(disc)
    ensures FileByte(disc, f.lba, p) == disc((f.lba + p / 2048) % 0x1_0000_0000)[p % 2048]
  {
  }
}
