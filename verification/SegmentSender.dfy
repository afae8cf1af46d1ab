/**
 LOADFILE's ELF loader (src/iop/loadfile.cpp): segments at any address sent to EE memory as aligned
 quadwords, through a chunk buffer and a carried last block.
 */
module SegmentSender {
  import Sifman

  const BLOCK: nat := 16
  const CHUNK: nat := 0x1000
  const PT_LOAD := 1
  /** carryAddress before anything is sent; no block begins there. */
  const NO_BLOCK := 0xFFFFFFFF

  datatype Segment = Segment(kind: int, offset: nat, paddr: nat, filesz: nat, memsz: nat) {
    function End(): nat { paddr + memsz }
    predicate Loaded() { kind == PT_LOAD && memsz != 0 }
    /** The byte a segment's image has at an address: from the file, then zero. */
    function ByteAt(file: seq<int>, a: nat): int {
      if paddr <= a < paddr + filesz && offset + (a - paddr) < |file| then file[offset + (a - paddr)] else 0
    }
    /** Its file bytes are all in the file. */
    predicate InFile(file: seq<int>) {
      offset + (if filesz < memsz then filesz else memsz) <= |file|
    }
  }

  // ----- the ELF header -------------------------------------------------------------------------

  const HEADERS: nat := 0x400
  const HEADER_BYTES: nat := 48
  const ELF_ERROR := -1

  function ByteOf(h: seq<int>, i: nat): nat {
    if i < |h| then h[i] % 0x100 else 0
  }

  function Half(h: seq<int>, i: nat): nat { ByteOf(h, i) + 0x100 * ByteOf(h, i + 1) }

  function WordOf(h: seq<int>, i: nat): nat { Half(h, i) + 0x1_0000 * Half(h, i + 2) }

  /** The header buffer after a first read that answered `got`: the file's beginning over what the buffer held. */
  function HeaderBytes(file: seq<int>, stale: seq<int>, got: int): (h: seq<int>)
    requires |stale| == HEADERS && got <= Min(|file|, HEADERS)
    ensures |h| == HEADERS
    ensures forall k :: 0 <= k < HEADERS ==> h[k] == if k < got then file[k] else stale[k]
  {
    if got < 0 then stale else file[..got] + stale[got..]
  }

  predicate Accepted(h: seq<int>, got: int)
    requires |h| == HEADERS
  {
    && got >= HEADER_BYTES && h[..4] == [0x7F, 'E' as int, 'L' as int, 'F' as int] && Half(h, 16) == 2
    && (WordOf(h, 28) + Half(h, 44) * Half(h, 42)) % 0x1_0000_0000 <= HEADERS
  }

  function SegmentAt(h: seq<int>, at: nat): Segment {
    Segment(WordOf(h, at), WordOf(h, at + 4), WordOf(h, at + 12), WordOf(h, at + 16), WordOf(h, at + 20))
  }

  function Segments(h: seq<int>): seq<Segment> {
    seq(Half(h, 44), i requires i >= 0 => SegmentAt(h, WordOf(h, 28) + i * Half(h, 42)))
  }

  /** The loaded segments come in order of address and do not overlap. */
  ghost predicate Ascending(segs: seq<Segment>) {
    forall i, j :: 0 <= i < j < |segs| && segs[i].Loaded() && segs[j].Loaded() ==> segs[i].End() <= segs[j].paddr
  }

  ghost predicate Fit(segs: seq<Segment>, size: nat) {
    size <= NO_BLOCK && forall i :: 0 <= i < |segs| && segs[i].Loaded() ==> Up(segs[i].End()) <= size
  }

  /** Every loaded segment's range holds its image. */
  ghost predicate Placed(segs: seq<Segment>, file: seq<int>, ee: seq<int>) {
    forall i :: 0 <= i < |segs| && segs[i].Loaded() ==> Holds(segs[i], file, ee)
  }

  ghost predicate Holds(s: Segment, file: seq<int>, ee: seq<int>) {
    s.End() <= |ee| && forall a {:trigger ee[a]} :: s.paddr <= a < s.End() ==> ee[a] == s.ByteAt(file, a)
  }

  ghost predicate Backed(segs: seq<Segment>, file: seq<int>) {
    forall i :: 0 <= i < |segs| && segs[i].Loaded() ==> segs[i].InFile(file)
  }

  ghost predicate Covered(segs: seq<Segment>, a: nat) {
    exists i :: 0 <= i < |segs| && segs[i].Loaded() && Down(segs[i].paddr) <= a < Up(segs[i].End())
  }

  /** Where a block holds both an earlier end's byte and a later start, it is the block of that end. */
  lemma SameBlock(start: nat, end: nat, a: nat)
    requires Down(start) <= a < end <= start
    ensures Up(end) - BLOCK == Down(start)
  {
  }

  predicate Aligned(a: int) {
    a % BLOCK == 0
  }

  function Down(a: nat): (d: nat)
    ensures Aligned(d) && d <= a < d + BLOCK
  {
    a / BLOCK * BLOCK
  }

  function Up(a: nat): (u: nat)
    ensures Aligned(u) && u - BLOCK < a <= u
  {
    (a + BLOCK - 1) / BLOCK * BLOCK
  }

  function Min(a: nat, b: nat): nat { if a < b then a else b }

  // ----- the transfers of a load ------------------------------------------------------------------

  /** SIFMAN's ring is not full at the `n`th transfer. */
  predicate Room(queued: nat -> nat, n: nat) { queued(n) < Sifman.GROUPS }

  predicate Covers(s: Segment, a: int) { s.Loaded() && Down(s.paddr) <= a < Up(s.End()) }

  /** The transfers a segment takes: the blocks that cover it, a chunk at a time. */
  function Chunks(s: Segment): nat {
    if s.Loaded() then (Up(s.End()) - Down(s.paddr) + CHUNK - 1) / CHUNK else 0
  }

  /** As many transfers of at most 0x1000 bytes as the quadwords that cover the segment need, and no more. */
  lemma ChunksNeeded(s: Segment)
    ensures s.kind == 1 && s.memsz > 0 ==>
      var low, high := s.paddr / 16 * 16, (s.paddr + s.memsz + 15) / 16 * 16;
      0x1000 * Chunks(s) - 0x1000 < high - low <= 0x1000 * Chunks(s)
    ensures s.kind != 1 || s.memsz == 0 ==> Chunks(s) == 0
  {
  }

  /** The transfers of the first `k` segments. */
  function Transfers(segs: seq<Segment>, k: nat): nat
    requires k <= |segs|
  {
    if k == 0 then 0 else Transfers(segs, k - 1) + Chunks(segs[k - 1])
  }

  /** In a load whose first transfer is the `n`th, the ring has room at segment `j`'s transfer of address `a`. */
  ghost predicate Carried(segs: seq<Segment>, queued: nat -> nat, n: nat, j: nat, a: nat)
    requires j < |segs|
  {
    Covers(segs[j], a) && Room(queued, n + Transfers(segs, j) + (a - Down(segs[j].paddr)) / CHUNK)
  }

  /** The block kept after the first `k` segments: the last one sent. */
  function LastBlock(segs: seq<Segment>, k: nat): nat
    requires k <= |segs|
  {
    if k == 0 then NO_BLOCK else if segs[k - 1].Loaded() then Up(segs[k - 1].End()) - BLOCK else LastBlock(segs, k - 1)
  }

  /** What the first `k` segments last sent to an address; what was there, if they sent nothing. */
  function MeantAt(segs: seq<Segment>, file: seq<int>, k: nat, was: seq<int>, a: nat): int
    requires k <= |segs| && a < |was|
  {
    if k == 0 then was[a]
    else
      var s, before := segs[k - 1], MeantAt(segs, file, k - 1, was, a);
      if !Covers(s, a) then before
      else if a < s.paddr then (if LastBlock(segs, k - 1) == Down(s.paddr) then before else 0)
      else if a < s.End() then s.ByteAt(file, a) else 0
  }

  /** What the first `k` segments leave at an address: a refused transfer leaves it alone. */
  ghost function EeAt(segs: seq<Segment>, file: seq<int>, queued: nat -> nat, n: nat, k: nat, was: seq<int>,
                      a: nat): int
    requires k <= |segs| && a < |was|
  {
    if k == 0 then was[a]
    else if Carried(segs, queued, n, k - 1, a) then MeantAt(segs, file, k, was, a)
    else EeAt(segs, file, queued, n, k - 1, was, a)
  }

  /** Memory, and memory as it would be had every transfer been accepted, once the first `k` segments are sent. */
  ghost predicate Loaded(segs: seq<Segment>, file: seq<int>, queued: nat -> nat, n: nat, k: nat, was: seq<int>,
                         ee: seq<int>, meant: seq<int>)
    requires k <= |segs|
  {
    && |ee| == |was| == |meant|
    && (forall a {:trigger ee[a]} :: 0 <= a < |ee| ==> ee[a] == EeAt(segs, file, queued, n, k, was, a))
    && (forall a {:trigger meant[a]} :: 0 <= a < |meant| ==> meant[a] == MeantAt(segs, file, k, was, a))
  }

  lemma LoadedMore(segs: seq<Segment>, file: seq<int>, queued: nat -> nat, n: nat, k: nat, was: seq<int>,
                   ee: seq<int>, meant: seq<int>, ee': seq<int>, meant': seq<int>)
    requires k < |segs| && segs[k].Loaded() && Loaded(segs, file, queued, n, k, was, ee, meant)
    requires var s := segs[k];
      && Sent(s, file, meant, meant', LastBlock(segs, k) == Down(s.paddr), Down(s.paddr), s.paddr, s.End(), Up(s.End()))
      && Delivered(queued, n + Transfers(segs, k), ee, ee', meant', Down(s.paddr), Up(s.End()))
    ensures Loaded(segs, file, queued, n, k + 1, was, ee', meant')
  {
    hide Segment.ByteAt, Up, Down, Room, LastBlock, Transfers;
    forall a {:trigger ee'[a]} | 0 <= a < |ee'|
      ensures ee'[a] == EeAt(segs, file, queued, n, k + 1, was, a)
      ensures meant'[a] == MeantAt(segs, file, k + 1, was, a)
    {
      assert meant[a] == MeantAt(segs, file, k, was, a) && ee[a] == EeAt(segs, file, queued, n, k, was, a);
    }
    assert forall a {:trigger meant'[a]} :: 0 <= a < |meant'| ==> ee'[a] == ee'[a];
  }

  lemma LoadedSkip(segs: seq<Segment>, file: seq<int>, queued: nat -> nat, n: nat, k: nat, was: seq<int>,
                   ee: seq<int>, meant: seq<int>)
    requires k < |segs| && !segs[k].Loaded() && Loaded(segs, file, queued, n, k, was, ee, meant)
    ensures Loaded(segs, file, queued, n, k + 1, was, ee, meant)
  {
  }

  /** The ring was full at every transfer of a span. */
  ghost predicate WasFull(queued: nat -> nat, from: nat, to: nat) {
    forall n: nat :: from <= n < to ==> !Room(queued, n)
  }

  /** One transfer for each chunk from `lo` to `hi`, the `n`th the first: an accepted one lands what was meant. */
  ghost predicate Delivered(queued: nat -> nat, n: nat, was: seq<int>, now: seq<int>, meant: seq<int>,
                            lo: nat, hi: nat) {
    && |now| == |was| == |meant|
    && forall a {:trigger now[a]} :: 0 <= a < |now| ==>
         now[a] == if lo <= a < hi && Room(queued, n + (a - lo) / CHUNK) then meant[a] else was[a]
  }

  lemma DeliveredNone(queued: nat -> nat, n: nat, m: seq<int>, meant: seq<int>, lo: nat)
    requires |m| == |meant|
    ensures Delivered(queued, n, m, m, meant, lo, lo)
  {
  }

  lemma DeliveredMore(queued: nat -> nat, n: nat, k: nat, m0: seq<int>, m1: seq<int>, m2: seq<int>,
                      meant1: seq<int>, meant2: seq<int>, lo: nat, mid: nat, hi: nat)
    requires Delivered(queued, n, m0, m1, meant1, lo, mid) && Delivered(queued, n + k, m1, m2, meant2, mid, hi)
    requires mid == lo + k * CHUNK && mid <= hi <= mid + CHUNK && OnlyWithin(meant1, meant2, mid, hi)
    ensures Delivered(queued, n, m0, m2, meant2, lo, hi)
  {
    hide Room;
    forall a {:trigger m2[a]} | 0 <= a < |m2|
      ensures m2[a] == if lo <= a < hi && Room(queued, n + (a - lo) / CHUNK) then meant2[a] else m0[a]
    {
      assert m1[a] == m1[a] && meant2[a] == meant2[a];
      if mid <= a < hi { ChunkOf(k, a - mid); }
    }
  }

  lemma ChunkOf(k: nat, r: nat)
    requires r < CHUNK
    ensures (k * CHUNK + r) / CHUNK == k && r / CHUNK == 0
  {
  }

  lemma ChunksAre(k: nat, r: nat)
    requires 0 < r <= CHUNK
    ensures (k * CHUNK + r + CHUNK - 1) / CHUNK == k + 1
  {
  }

  /** Deliveries stay in their range, and a ring full throughout lands nothing. */
  lemma DeliveredWithin(queued: nat -> nat, n: nat, to: nat, was: seq<int>, now: seq<int>, meant: seq<int>,
                        lo: nat, hi: nat)
    requires Delivered(queued, n, was, now, meant, lo, hi) && lo <= hi && to == n + (hi - lo + CHUNK - 1) / CHUNK
    ensures OnlyWithin(was, now, lo, hi) && (WasFull(queued, n, to) ==> now == was)
  {
    hide Room;
    if WasFull(queued, n, to) {
      forall a | 0 <= a < |now|
        ensures now[a] == was[a]
      {
        if lo <= a < hi {
          ChunkBelow(a - lo, hi - lo);
          assert !Room(queued, n + (a - lo) / CHUNK);
        }
      }
    }
  }

  lemma ChunkBelow(r: nat, size: nat)
    requires r < size
    ensures 0 <= r / CHUNK < (size + CHUNK - 1) / CHUNK
  {
  }

  /** Nothing changed outside a range. */
  ghost predicate OnlyWithin(was: seq<int>, now: seq<int>, lo: int, hi: int) {
    |now| == |was| && forall a {:trigger now[a]} :: 0 <= a < |now| && !(lo <= a < hi) ==> now[a] == was[a]
  }

  /**
   The blocks from `lo` to `hi` were sent a segment's image from `start` to `end`: before it the carried bytes or
   zeros, after it zeros, and outside the blocks nothing.
   */
  ghost predicate Sent(s: Segment, file: seq<int>, was: seq<int>, now: seq<int>, carried: bool,
                       lo: int, start: int, end: int, hi: int) {
    && |now| == |was| && s.paddr <= start
    && forall a {:trigger now[a]} :: 0 <= a < |now| ==>
         now[a] == if a < lo || hi <= a then was[a]
                   else if a < start then (if carried then was[a] else 0)
                   else if a < end then s.ByteAt(file, a) else 0
  }

  /** The first chunk carries the lead; the next ones go on where the one before ended. */
  lemma SentMore(s: Segment, file: seq<int>, a: seq<int>, b: seq<int>, c: seq<int>, carried: bool, carried': bool,
                 lo: int, start: int, end: int, hi: int, end': int, hi': int)
    requires Sent(s, file, a, b, carried, lo, start, end, hi) && Sent(s, file, b, c, carried', hi, end, end', hi')
    requires lo <= start <= end <= end' <= hi' && lo <= hi <= hi'
    requires hi == end || (end == start && hi == lo && carried == carried')
    ensures Sent(s, file, a, c, carried, lo, start, end', hi')
  {
    hide Segment.ByteAt;
    forall x {:trigger c[x]} | 0 <= x < |c|
      ensures c[x] == if x < lo || hi' <= x then a[x]
                      else if x < start then (if carried then a[x] else 0)
                      else if x < end' then s.ByteAt(file, x) else 0
    {
      assert b[x] == b[x];
    }
  }

  lemma SentNothing(s: Segment, file: seq<int>, m: seq<int>, carried: bool, lo: int)
    ensures Sent(s, file, m, m, carried, lo, s.paddr, s.paddr, lo)
  {
  }

  lemma SentWithin(s: Segment, file: seq<int>, was: seq<int>, now: seq<int>, carried: bool,
                   lo: int, start: int, end: int, hi: int)
    requires Sent(s, file, was, now, carried, lo, start, end, hi)
    ensures OnlyWithin(was, now, lo, hi)
  {
    hide Segment.ByteAt;
  }

  /** One chunk's blocks, lead, image and padding. */
  lemma SentChunk(s: Segment, file: seq<int>, was: seq<int>, now: seq<int>, data: seq<int>, carried: bool,
                  lo: int, start: int, end: int)
    requires |now| == |was| && 0 <= lo <= start <= end <= lo + |data| <= |now| && s.paddr <= start
    requires forall a {:trigger now[a]} :: 0 <= a < |now| ==>
      now[a] == if lo <= a < lo + |data| then data[a - lo] else was[a]
    requires forall k :: 0 <= k < start - lo ==> data[k] == if carried then was[lo + k] else 0
    requires forall k :: start - lo <= k < |data| ==> data[k] == if k < end - lo then s.ByteAt(file, lo + k) else 0
    ensures Sent(s, file, was, now, carried, lo, start, end, lo + |data|)
  {
    hide Segment.ByteAt;
  }

  class Loader {
    const file: seq<int>
    /** A drive that reads whatever the file has; otherwise any read may fail. */
    const healthy: bool
    /** The groups SIFMAN's ring holds when the loader asks for its `n`th transfer. */
    const queued: nat -> nat
    var sends: nat
    var headers: seq<int>
    const chunk: array<int>
    const carry: array<int>
    var carryAddress: nat
    var ee: seq<int>
    /** EE memory as it would be had every transfer been accepted. */
    ghost var meant: seq<int>

    ghost predicate Valid()
      reads this, carry
    {
      && chunk.Length == CHUNK && carry.Length == BLOCK && chunk != carry && |headers| == HEADERS
      && (carryAddress == NO_BLOCK || (Aligned(carryAddress) && carryAddress + BLOCK <= |meant|
                                        && carry[..] == meant[carryAddress..carryAddress + BLOCK]))
      && |meant| == |ee|
    }

    constructor (file: seq<int>, healthy: bool, queued: nat -> nat, ee: seq<int>)
      ensures Valid() && carryAddress == NO_BLOCK && this.ee == ee && sends == 0
      ensures this.file == file && this.healthy == healthy && this.queued == queued
      ensures fresh(chunk) && fresh(carry)
    {
      this.file, this.healthy, this.queued, this.sends := file, healthy, queued, 0;
      chunk, carry := new int[CHUNK], new int[BLOCK];
      headers := seq(HEADERS, i => 0);
      carryAddress, this.ee, this.meant := NO_BLOCK, ee, ee;
    }

    /** lseek and read into the chunk buffer; false when fewer bytes came than were asked for. */
    method ReadInto(at: nat, offset: nat, n: nat) returns (ok: bool)
      requires Valid() && at + n <= CHUNK
      modifies chunk
      ensures ok ==> offset + n <= |file|
      ensures healthy && offset + n <= |file| ==> ok
      ensures forall k :: 0 <= k < at ==> chunk[k] == old(chunk[k])
      ensures ok ==> forall k :: at <= k < at + n ==> chunk[k] == file[offset + (k - at)]
    {
      var broken: bool := *;
      ok := offset + n <= |file| && (healthy || !broken);
      var k := 0;
      while k < n && offset + k < |file|
        invariant 0 <= k <= n
        invariant forall j :: 0 <= j < at ==> chunk[j] == old(chunk[j])
        invariant forall j :: at <= j < at + k ==> offset + (j - at) < |file| && chunk[j] == file[offset + (j - at)]
      {
        chunk[at + k] := file[offset + k];
        k := k + 1;
      }
    }

    /** One transfer: whole quadwords to a quadword address.  A full ring refuses it, and it is not tried again. */
    method SendToEe(address: nat, length: nat)
      requires chunk.Length == CHUNK && length <= CHUNK && address + length <= |ee| == |meant|
      requires Aligned(address) && Aligned(length)
      modifies this`ee, this`sends, this`meant
      ensures |ee| == old(|ee|) == |meant| && sends == old(sends) + 1
      ensures forall a {:trigger meant[a]} :: 0 <= a < |ee| ==>
        meant[a] == if address <= a < address + length then chunk[a - address] else old(meant[a])
      ensures forall a {:trigger ee[a]} :: 0 <= a < |ee| ==>
        ee[a] == if address <= a < address + length && Room(queued, old(sends)) then chunk[a - address] else old(ee[a])
    {
      if Room(queued, sends) {
        ee := ee[..address] + chunk[..length] + ee[address + length..];
      }
      sends := sends + 1;
      meant := meant[..address] + chunk[..length] + meant[address + length..];
    }

    /** The bytes of the carried block ahead of a segment that begins inside it, or zeros. */
    method FillLead(address: nat, lead: nat)
      requires Valid() && lead < BLOCK
      modifies chunk
      ensures forall k :: 0 <= k < lead ==> chunk[k] == if address == carryAddress then carry[k] else 0
    {
      var k := 0;
      while k < lead
        invariant 0 <= k <= lead
        invariant forall j :: 0 <= j < k ==> chunk[j] == if address == carryAddress then carry[j] else 0
      {
        chunk[k] := if address == carryAddress then carry[k] else 0;
        k := k + 1;
      }
    }

    method FillZeros(from: nat, length: nat)
      requires Valid() && from <= length <= CHUNK
      modifies chunk
      ensures forall k :: 0 <= k < CHUNK ==> chunk[k] == if from <= k < length then 0 else old(chunk[k])
    {
      var k := from;
      while k < length
        invariant from <= k <= length
        invariant forall j :: 0 <= j < CHUNK ==> chunk[j] == if from <= j < k then 0 else old(chunk[j])
      {
        chunk[k] := 0;
        k := k + 1;
      }
    }

    /** Keep the block just sent. */
    method KeepBlock(length: nat)
      requires chunk.Length == CHUNK && carry.Length == BLOCK && chunk != carry && BLOCK <= length <= CHUNK
      modifies carry
      ensures carry[..] == chunk[length - BLOCK..length]
    {
      var k := 0;
      while k < BLOCK
        invariant 0 <= k <= BLOCK
        invariant forall j :: 0 <= j < k ==> carry[j] == chunk[length - BLOCK + j]
        invariant chunk[..] == old(chunk[..])
      {
        carry[k] := chunk[length - BLOCK + k];
        k := k + 1;
      }
      assert forall j :: 0 <= j < BLOCK ==> carry[..][j] == chunk[length - BLOCK..length][j];
    }

    /** The segment's next bytes into the chunk at `fill`, and zeros to the end of the last block. */
    method FillImage(s: Segment, position: nat, fill: nat, wanted: nat) returns (ok: bool)
      requires Valid() && fill < BLOCK && fill + wanted <= CHUNK && position + wanted <= s.memsz
      modifies chunk
      ensures s.InFile(file) && healthy ==> ok
      ensures forall k :: 0 <= k < fill ==> chunk[k] == old(chunk[k])
      ensures ok ==> forall k :: fill <= k < Up(fill + wanted) ==>
        chunk[k] == if k < fill + wanted then s.ByteAt(file, s.paddr + position + (k - fill)) else 0
    {
      var fromFile := 0;
      ok := true;
      if position < s.filesz {
        fromFile := Min(s.filesz - position, wanted);
        ok := ReadInto(fill, s.offset + position, fromFile);
        if !ok { return; }
      }
      FillZeros(fill + fromFile, Up(fill + wanted));
    }

    /**
     sendSegment: the segment's range is sent its image, the bytes before it in its first block are sent the
     carried block's (or zeros), a transfer for each chunk; each accepted one lands, and nothing else changes.
     A failed read stops it short, at `reach`.
     */
    method SendSegment(s: Segment) returns (ok: bool, ghost reach: nat)
      requires Valid() && s.Loaded() && Up(s.End()) <= |ee| <= NO_BLOCK
      modifies this`ee, this`carryAddress, this`sends, this`meant, chunk, carry
      ensures Valid() && |ee| == old(|ee|) && Down(s.paddr) <= reach <= Up(s.End())
      ensures s.InFile(file) && healthy ==> ok
      ensures sends == old(sends) + (reach - Down(s.paddr) + CHUNK - 1) / CHUNK
      ensures Delivered(queued, old(sends), old(ee), ee, meant, Down(s.paddr), reach)
      ensures OnlyWithin(old(meant), meant, Down(s.paddr), reach)
      ensures ok ==> reach == Up(s.End()) && carryAddress == Up(s.End()) - BLOCK
      ensures ok ==> Sent(s, file, old(meant), meant, old(carryAddress) == Down(s.paddr),
                          Down(s.paddr), s.paddr, s.End(), Up(s.End()))
    {
      hide Up, Down, Aligned, Segment.ByteAt, Segment.InFile, OnlyWithin, Sent, Valid, Delivered;
      ghost var base, was, fromCarry := Down(s.paddr), meant, carryAddress == Down(s.paddr);
      ghost var memory, first := ee, sends;
      SentNothing(s, file, meant, fromCarry, base);
      SameLength();
      DeliveredNone(queued, sends, ee, meant, base);
      UpMonotone(s.paddr, s.End());
      var address := Down(s.paddr);
      var lead := s.paddr - address;
      var position := 0;
      ghost var k: nat := 0;
      ok := true;
      while position < s.memsz || lead != 0
        invariant Valid() && |ee| == old(|ee|) && position <= s.memsz && Aligned(address) && base <= address
        invariant lead != 0 ==> position == 0 && address == base && lead == s.paddr - base
        invariant position == 0 ==> carryAddress == old(carryAddress) && s.paddr == address + lead && k == 0
        invariant position > 0 ==> lead == 0 && address == carryAddress + BLOCK == Up(s.paddr + position)
        invariant 0 < position < s.memsz ==> address == s.paddr + position
        invariant sends == first + k && (position < s.memsz ==> address == base + k * CHUNK)
        invariant position > 0 ==> k > 0 && base + (k - 1) * CHUNK < address <= base + k * CHUNK
        invariant Delivered(queued, first, memory, ee, meant, base, address)
        invariant Sent(s, file, was, meant, fromCarry, base, s.paddr, s.paddr + position, address)
        decreases s.memsz - position
      {
        ghost var held, held', carried, from := ee, meant, carryAddress == address, address;
        var sent, wanted := SendNext(s, address, lead, position);
        if !sent {
          SentWithin(s, file, was, meant, fromCarry, base, s.paddr, s.paddr + position, address);
          WholeChunks(base, address, k);
          return false, address;
        }
        lead := 0;
        address := carryAddress + BLOCK;
        UpAligned(s.paddr + position + wanted);
        position := position + wanted;
        UpMonotone(s.paddr + position, s.End());
        SentWithin(s, file, held', meant, carried, from, s.paddr + position - wanted, s.paddr + position, address);
        DeliveredMore(queued, first, k, memory, held, ee, held', meant, base, from, address);
        SentMore(s, file, was, held', meant, fromCarry, carried, base, s.paddr, s.paddr + position - wanted, from,
          s.paddr + position, address);
        k := k + 1;
      }
      SentWithin(s, file, was, meant, fromCarry, base, s.paddr, s.End(), address);
      ChunksAre(k - 1, address - (base + (k - 1) * CHUNK));
      reach := address;
    }

    lemma SameLength()
      requires Valid()
      ensures |meant| == |ee|
    {
    }

    /**
     loadElf, over what the first read answered: with a sound file and drive it succeeds, and then each byte of EE
     memory is what the schedule of transfers says; nothing outside the segments' covering blocks changes.
     */
    method LoadElf(got: int) returns (r: int, entry: nat)
      requires Valid() && got <= Min(|file|, HEADERS) && (healthy ==> got == Min(|file|, HEADERS))
      requires var h := HeaderBytes(file, headers, got); Accepted(h, got) ==> Fit(Segments(h), |ee|)
      modifies this, chunk, carry
      ensures Valid() && |ee| == old(|ee|) && sends >= old(sends)
      ensures r in {0, -1} && headers == HeaderBytes(file, old(headers), got)
      ensures !Accepted(headers, got) ==> r == -1 && ee == old(ee)
      ensures Accepted(headers, got) && healthy && Backed(Segments(headers), file) ==> r == 0
      ensures r == 0 ==> Accepted(headers, got) && entry == WordOf(headers, 24)
      ensures r == 0 ==> sends == old(sends) + Transfers(Segments(headers), |Segments(headers)|)
      ensures r == 0 ==> forall a {:trigger ee[a]} :: 0 <= a < |ee| ==>
        ee[a] == EeAt(Segments(headers), file, queued, old(sends), |Segments(headers)|, old(ee), a)
      // The range of every segment holds its image exactly when the schedule and the memory before allow it.
      ensures r == 0 && Ascending(Segments(headers)) ==>
        (Placed(Segments(headers), file, ee) <==> WouldPlace(Segments(headers), file, queued, old(sends), old(ee)))
      ensures WasFull(queued, old(sends), sends) ==> ee == old(ee)
      ensures forall a {:trigger ee[a]} :: 0 <= a < |ee| && !Covered(Segments(headers), a) ==> ee[a] == old(ee[a])
    {
      hide Up, Down, Segment.ByteAt, Segment.InFile, SegmentAt, WordOf, Half, ByteOf, Placed, Covered, Accepted,
        HeaderBytes, WasFull, Loaded, Delivered, Sent, Transfers, Chunks, EeAt, WouldPlace, Ascending, OnlyWithin;
      ghost var was, first := ee, sends;
      headers := HeaderBytes(file, headers, got);
      var segs := Segments(headers);
      entry := 0;
      if !Accepted(headers, got) { return ELF_ERROR, 0; }
      carryAddress := NO_BLOCK;
      meant := ee;
      var index := 0;
      LoadedNone(segs, file, queued, first, was);
      while index < |segs|
        invariant 0 <= index <= |segs| && segs == Segments(headers) && headers == HeaderBytes(file, old(headers), got)
        invariant Valid() && |ee| == |was| && Loaded(segs, file, queued, first, index, was, ee, meant)
        invariant carryAddress == LastBlock(segs, index) && sends == first + Transfers(segs, index)
        invariant WasFull(queued, first, sends) ==> ee == was
        invariant forall a {:trigger ee[a]} :: 0 <= a < |ee| && !Covered(segs, a) ==> ee[a] == was[a]
      {
        var s := segs[index];
        TransfersNext(segs, index);
        if s.Loaded() {
          ghost var held, held', from := ee, meant, sends;
          ghost var reach;
          var sent;
          sent, reach := SendSegment(s);
          DeliveredWithin(queued, from, sends, held, ee, meant, Down(s.paddr), reach);
          FullJoins(queued, first, from, sends);
          CoveredHere(segs, index);
          Outside(segs, index, was, held, ee, reach);
          if !sent { return ELF_ERROR, 0; }
          LoadedMore(segs, file, queued, first, index, was, held, held', ee, meant);
        } else {
          LoadedSkip(segs, file, queued, first, index, was, ee, meant);
        }
        index := index + 1;
      }
      LoadedMeans(segs, file, queued, first, was, ee, meant);
      if Ascending(segs) { PlacedIff(segs, file, queued, first, was, ee); }
      r, entry := 0, WordOf(headers, 24);
    }

    /** One round: the lead bytes if there are any, as much of the image as the chunk holds, and the padding. */
    method SendNext(s: Segment, address: nat, lead: nat, position: nat) returns (ok: bool, wanted: nat)
      requires Valid() && Up(s.End()) <= |ee| <= NO_BLOCK && Aligned(address) && lead < BLOCK
      requires position < s.memsz && address + lead == s.paddr + position
      modifies this`ee, this`carryAddress, this`sends, this`meant, chunk, carry
      ensures Valid() && |ee| == old(|ee|)
      ensures s.InFile(file) && healthy ==> ok
      ensures !ok ==> ee == old(ee) && meant == old(meant) && sends == old(sends)
      ensures ok ==> 0 < wanted <= s.memsz - position && sends == old(sends) + 1
      ensures ok && position + wanted < s.memsz ==>
        Up(s.paddr + position + wanted) == s.paddr + position + wanted == address + CHUNK
      ensures ok ==> address < Up(s.paddr + position + wanted) <= address + CHUNK
      ensures ok ==> carryAddress == Up(s.paddr + position + wanted) - BLOCK
      ensures ok ==> Sent(s, file, old(meant), meant, address == old(carryAddress),
                          address, s.paddr + position, s.paddr + position + wanted, Up(s.paddr + position + wanted))
      ensures ok ==> Delivered(queued, old(sends), old(ee), ee, meant, address, Up(s.paddr + position + wanted))
    {
      hide Up, Down, Aligned, Segment.ByteAt, Segment.InFile, Sent, Delivered;
      FillLead(address, lead);
      wanted := Min(s.memsz - position, CHUNK - lead);
      ok := FillImage(s, position, lead, wanted);
      if !ok { return; }
      var length := Up(lead + wanted);
      if position + wanted < s.memsz { UpChunkEnd(address); }
      UpAdds(address, lead + wanted);
      UpChunk(lead + wanted);
      UpMonotone(s.paddr + position + wanted, s.End());
      ghost var was, data, carried := meant, chunk[..length], address == carryAddress;
      forall k | 0 <= k < lead
        ensures data[k] == if carried then was[address + k] else 0
      {
        assert data[k] == chunk[k];
        assert carried ==> carry[..][k] == meant[carryAddress..carryAddress + BLOCK][k];
      }
      Transmit(address, length);
      SentChunk(s, file, was, meant, data, carried, address, s.paddr + position, s.paddr + position + wanted);
    }

    /** Send the chunk's blocks and keep the last of them. */
    method Transmit(address: nat, length: nat)
      requires Valid() && Aligned(address) && Aligned(length) && BLOCK <= length <= CHUNK
      requires address + length <= |ee| <= NO_BLOCK
      modifies this`ee, this`carryAddress, this`sends, this`meant, carry
      ensures Valid() && carryAddress == address + length - BLOCK && |ee| == old(|ee|) && sends == old(sends) + 1
      ensures forall a {:trigger meant[a]} :: 0 <= a < |ee| ==>
        meant[a] == if address <= a < address + length then chunk[a - address] else old(meant[a])
      ensures Delivered(queued, old(sends), old(ee), ee, meant, address, address + length)
    {
      SendToEe(address, length);
      KeepBlock(length);
      carryAddress := address + length - BLOCK;
      forall j | 0 <= j < BLOCK
        ensures carry[..][j] == meant[carryAddress..carryAddress + BLOCK][j]
      {
        assert meant[carryAddress + j] == chunk[carryAddress + j - address];
        assert carry[..][j] == chunk[length - BLOCK..length][j];
      }
      forall a {:trigger ee[a]} | 0 <= a < |ee|
        ensures address <= a < address + length ==> (a - address) / CHUNK == 0 && meant[a] == chunk[a - address]
      {
        if address <= a < address + length { ChunkOf(0, a - address); }
      }
    }
  }

  lemma UpAdds(a: nat, n: nat)
    requires Aligned(a)
    ensures Up(a + n) == a + Up(n)
  {
    QuotientAdds(a / BLOCK, n + BLOCK - 1);
  }

  lemma QuotientAdds(q: nat, m: nat)
    ensures (q * BLOCK + m) / BLOCK == q + m / BLOCK
  {
    var r := m / BLOCK;
    assert (q + r) * BLOCK <= q * BLOCK + m < (q + r) * BLOCK + BLOCK;
  }

  lemma UpAligned(a: nat)
    ensures Aligned(Up(a))
  {
  }

  lemma UpChunk(n: nat)
    requires 0 < n <= CHUNK
    ensures BLOCK <= Up(n) <= CHUNK
  {
  }

  lemma CoveredHere(segs: seq<Segment>, i: nat)
    requires i < |segs| && segs[i].Loaded()
    ensures forall a: nat :: Down(segs[i].paddr) <= a < Up(segs[i].End()) ==> Covered(segs, a)
  {
  }

  lemma UpChunkEnd(a: nat)
    requires Aligned(a)
    ensures Up(a + CHUNK) == a + CHUNK
  {
  }

  lemma UpMonotone(a: nat, b: nat)
    requires a <= b
    ensures Up(a) <= Up(b)
  {
  }

  lemma WholeChunks(base: nat, address: nat, k: nat)
    requires address == base + k * CHUNK
    ensures (address - base + CHUNK - 1) / CHUNK == k
  {
  }

  lemma FullJoins(queued: nat -> nat, a: nat, b: nat, c: nat)
    requires a <= b <= c
    ensures WasFull(queued, a, c) <==> WasFull(queued, a, b) && WasFull(queued, b, c)
  {
  }

  lemma TransfersNext(segs: seq<Segment>, k: nat)
    requires k < |segs|
    ensures Transfers(segs, k + 1) == Transfers(segs, k) + Chunks(segs[k])
    ensures Chunks(segs[k]) ==
      if segs[k].Loaded() then (Up(segs[k].End()) - Down(segs[k].paddr) + CHUNK - 1) / CHUNK else 0
  {
  }

  lemma LoadedNone(segs: seq<Segment>, file: seq<int>, queued: nat -> nat, n: nat, was: seq<int>)
    ensures Loaded(segs, file, queued, n, 0, was, was, was) && Transfers(segs, 0) == 0
  {
  }

  lemma LoadedMeans(segs: seq<Segment>, file: seq<int>, queued: nat -> nat, n: nat, was: seq<int>,
                    ee: seq<int>, meant: seq<int>)
    requires Loaded(segs, file, queued, n, |segs|, was, ee, meant)
    ensures |ee| == |was|
    ensures forall a {:trigger ee[a]} :: 0 <= a < |ee| ==> ee[a] == EeAt(segs, file, queued, n, |segs|, was, a)
  {
  }

  /** A segment's transfers change nothing outside its covering blocks. */
  lemma Outside(segs: seq<Segment>, i: nat, was: seq<int>, held: seq<int>, ee: seq<int>, reach: nat)
    requires i < |segs| && segs[i].Loaded() && reach <= Up(segs[i].End())
    requires OnlyWithin(held, ee, Down(segs[i].paddr), reach) && |was| == |held|
    requires forall a {:trigger held[a]} :: 0 <= a < |held| && !Covered(segs, a) ==> held[a] == was[a]
    ensures forall a {:trigger ee[a]} :: 0 <= a < |ee| && !Covered(segs, a) ==> ee[a] == was[a]
  {
    hide Up, Down;
    forall a {:trigger ee[a]} | 0 <= a < |ee| && !Covered(segs, a)
      ensures ee[a] == was[a]
    {
      assert held[a] == was[a];
    }
  }

  // ----- what a load leaves ------------------------------------------------------------------------

  /** A transfer of segment `i`'s image byte at `a`, its own or a later segment's that carries it, finds room. */
  ghost predicate Arrives(segs: seq<Segment>, queued: nat -> nat, n: nat, i: nat, a: nat) {
    exists j: nat :: i <= j < |segs| && Carried(segs, queued, n, j, a)
  }

  /** What is at `a` before segment `i`: an earlier one's padding, if it arrived, or what was there before the load. */
  ghost function Before(segs: seq<Segment>, queued: nat -> nat, n: nat, i: nat, was: seq<int>, a: nat): int
    requires a < |was|
  {
    if exists j: nat :: j < i && j < |segs| && Carried(segs, queued, n, j, a) then 0 else was[a]
  }

  /** Every byte of the image arrives, or is there already. */
  ghost predicate WouldPlace(segs: seq<Segment>, file: seq<int>, queued: nat -> nat, n: nat, was: seq<int>) {
    forall i, a: nat :: 0 <= i < |segs| && segs[i].Loaded() && segs[i].paddr <= a < segs[i].End() && a < |was| ==>
      Arrives(segs, queued, n, i, a) || Before(segs, queued, n, i, was, a) == segs[i].ByteAt(file, a)
  }

  /** Segments up to the `i`th only pad over its image. */
  lemma {:induction false} PaddedBefore(segs: seq<Segment>, file: seq<int>, queued: nat -> nat, n: nat, k: nat, i: nat,
                                        was: seq<int>, a: nat)
    requires Ascending(segs) && k <= i < |segs| && segs[i].Loaded() && segs[i].paddr <= a < |was|
    ensures EeAt(segs, file, queued, n, k, was, a) == Before(segs, queued, n, k, was, a)
  {
    hide Up, Down, Segment.ByteAt, Room, Transfers, LastBlock, Chunks;
    if k > 0 {
      PaddedBefore(segs, file, queued, n, k - 1, i, was, a);
      assert Covers(segs[k - 1], a) ==> segs[k - 1].End() <= segs[i].paddr;
    }
  }

  /** After a segment is sent, later ones that share its last block send its bytes again. */
  lemma {:induction false} MeantStays(segs: seq<Segment>, file: seq<int>, k: nat, i: nat, was: seq<int>, a: nat)
    requires Ascending(segs) && i < k <= |segs| && segs[i].Loaded() && segs[i].paddr <= a < segs[i].End() && a < |was|
    ensures MeantAt(segs, file, k, was, a) == segs[i].ByteAt(file, a)
  {
    hide Up, Down, Segment.ByteAt, LastBlock;
    if k == i + 1 {
      DownUp(segs[i].paddr, segs[i].End(), a);
    } else {
      MeantStays(segs, file, k - 1, i, was, a);
      if Covers(segs[k - 1], a) { LastHolds(segs, k - 1, i, a); }
    }
  }

  lemma DownUp(start: nat, end: nat, a: nat)
    requires start <= a < end
    ensures Down(start) <= a < Up(end)
  {
  }

  /** The block kept is the one a later segment begins in, if that holds a byte of an earlier one. */
  lemma {:induction false} LastHolds(segs: seq<Segment>, k: nat, i: nat, a: nat)
    requires Ascending(segs) && i < k < |segs| && segs[i].Loaded() && segs[k].Loaded() && a < segs[i].End()
    requires Down(segs[k].paddr) <= a
    ensures LastBlock(segs, k) == Down(segs[k].paddr)
  {
    hide Up, Down;
    LastEnd(segs, k, i);
    var e := LastSent(segs, k, i);
    assert segs[e].End() <= segs[k].paddr;
    SameBlock(segs[k].paddr, segs[e].End(), a);
  }

  /** The last loaded segment before the `k`th, which is the `i`th or a later one. */
  ghost function LastSent(segs: seq<Segment>, k: nat, i: nat): (e: nat)
    requires i < k <= |segs| && segs[i].Loaded()
    ensures i <= e < k && segs[e].Loaded()
  {
    if segs[k - 1].Loaded() then k - 1 else LastSent(segs, k - 1, i)
  }

  lemma {:induction false} LastEnd(segs: seq<Segment>, k: nat, i: nat)
    requires Ascending(segs) && i < k <= |segs| && segs[i].Loaded()
    ensures var e := LastSent(segs, k, i);
      segs[i].End() <= segs[e].End() && LastBlock(segs, k) == Up(segs[e].End()) - BLOCK
  {
    hide Up, Down;
    if !segs[k - 1].Loaded() { LastEnd(segs, k - 1, i); }
  }

  /** Every byte of the image, once the segments are sent: its own, if a transfer that carries it arrived. */
  lemma {:induction false} ImageByte(segs: seq<Segment>, file: seq<int>, queued: nat -> nat, n: nat, k: nat, i: nat,
                                     was: seq<int>, a: nat)
    requires Ascending(segs) && i < k <= |segs| && segs[i].Loaded() && segs[i].paddr <= a < segs[i].End() && a < |was|
    ensures EeAt(segs, file, queued, n, k, was, a) ==
      if exists j: nat :: i <= j < k && Carried(segs, queued, n, j, a) then segs[i].ByteAt(file, a)
      else Before(segs, queued, n, i, was, a)
  {
    hide Segment.ByteAt, Carried, MeantAt, Before;
    MeantStays(segs, file, k, i, was, a);
    if k == i + 1 {
      PaddedBefore(segs, file, queued, n, i, i, was, a);
    } else {
      ImageByte(segs, file, queued, n, k - 1, i, was, a);
    }
  }

  /** A load that succeeds places the image exactly when each byte of it arrives, or is what was there before. */
  lemma PlacedIff(segs: seq<Segment>, file: seq<int>, queued: nat -> nat, n: nat, was: seq<int>, ee: seq<int>)
    requires Ascending(segs) && Fit(segs, |was|) && |ee| == |was|
    requires forall a {:trigger ee[a]} :: 0 <= a < |ee| ==> ee[a] == EeAt(segs, file, queued, n, |segs|, was, a)
    ensures Placed(segs, file, ee) <==> WouldPlace(segs, file, queued, n, was)
  {
    hide Segment.ByteAt, Carried, EeAt, Before, Ascending;
    forall i, a: nat | 0 <= i < |segs| && segs[i].Loaded() && segs[i].paddr <= a < segs[i].End() && a < |was|
      ensures ee[a] == if Arrives(segs, queued, n, i, a) then segs[i].ByteAt(file, a)
                       else Before(segs, queued, n, i, was, a)
    {
      ImageByte(segs, file, queued, n, |segs|, i, was, a);
      assert ee[a] == EeAt(segs, file, queued, n, |segs|, was, a);
    }
    PlacedBytes(segs, file, ee);
  }

  lemma PlacedBytes(segs: seq<Segment>, file: seq<int>, ee: seq<int>)
    requires Fit(segs, |ee|)
    ensures Placed(segs, file, ee) <==> forall i, a: nat ::
      0 <= i < |segs| && segs[i].Loaded() && segs[i].paddr <= a < segs[i].End() && a < |ee| ==>
        ee[a] == segs[i].ByteAt(file, a)
  {
    hide Segment.ByteAt;
    forall i | 0 <= i < |segs| && segs[i].Loaded()
      ensures segs[i].End() <= |ee|
    {
      assert Up(segs[i].End()) <= |ee|;
    }
    if Placed(segs, file, ee) {
      forall i, a: nat | 0 <= i < |segs| && segs[i].Loaded() && segs[i].paddr <= a < segs[i].End() && a < |ee|
        ensures ee[a] == segs[i].ByteAt(file, a)
      {
        assert Holds(segs[i], file, ee);
      }
    }
  }

  /** So it places the image whenever the ring has room at each of the load's transfers. */
  lemma RoomPlaces(segs: seq<Segment>, file: seq<int>, queued: nat -> nat, n: nat, was: seq<int>)
    requires forall t: nat :: n <= t < n + Transfers(segs, |segs|) ==> Room(queued, t)
    ensures WouldPlace(segs, file, queued, n, was)
  {
    hide Segment.ByteAt, Before, Arrives;
    forall i, a: nat | 0 <= i < |segs| && segs[i].Loaded() && segs[i].paddr <= a < segs[i].End() && a < |was|
      ensures Arrives(segs, queued, n, i, a)
    {
      RoomArrives(segs, queued, n, i, a);
    }
  }

  lemma RoomArrives(segs: seq<Segment>, queued: nat -> nat, n: nat, i: nat, a: nat)
    requires forall t: nat :: n <= t < n + Transfers(segs, |segs|) ==> Room(queued, t)
    requires i < |segs| && segs[i].Loaded() && segs[i].paddr <= a < segs[i].End()
    ensures Arrives(segs, queued, n, i, a)
  {
    hide Up, Down;
    DownUp(segs[i].paddr, segs[i].End(), a);
    var t := n + Transfers(segs, i) + (a - Down(segs[i].paddr)) / CHUNK;
    ChunkBelow(a - Down(segs[i].paddr), Up(segs[i].End()) - Down(segs[i].paddr));
    TransfersNext(segs, i);
    TransfersGrow(segs, i + 1, |segs|);
    assert Room(queued, t);
    assert Carried(segs, queued, n, i, a);
  }

  lemma {:induction false} TransfersGrow(segs: seq<Segment>, k: nat, l: nat)
    requires k <= l <= |segs|
    ensures Transfers(segs, k) <= Transfers(segs, l)
  {
    if k < l { TransfersGrow(segs, k, l - 1); }
  }

  // ----- the ELF header as a linker writes it ---------------------------------------------------------

  function LeHalf(v: nat): seq<int> { [v % 0x100, v / 0x100 % 0x100] }

  function LeWord(v: nat): seq<int> {
    [v % 0x100, v / 0x100 % 0x100, v / 0x1_0000 % 0x100, v / 0x100_0000 % 0x100]
  }

  function LeWords(ws: seq<nat>): seq<int> {
    if ws == [] then [] else LeWord(ws[0]) + LeWords(ws[1..])
  }

  lemma {:induction false} LeWordsAt(ws: seq<nat>, k: nat)
    requires k < |ws|
    ensures |LeWords(ws)| == 4 * |ws| && LeWords(ws)[4 * k..4 * k + 4] == LeWord(ws[k])
  {
    hide LeWord;
    LeWordSize(ws[0]);
    if k > 0 {
      LeWordsAt(ws[1..], k - 1);
      assert LeWords(ws)[4 * k..4 * k + 4] == LeWords(ws[1..])[4 * k - 4..4 * k];
    } else if |ws| > 1 {
      LeWordsAt(ws[1..], 0);
    }
  }

  lemma LeWordSize(v: nat)
    ensures |LeWord(v)| == 4
  {
  }

  /** The fields of a program header, all 32-bit words, in the order they are stored. */
  datatype ProgramHeader = ProgramHeader(ptype: nat, offset: nat, vaddr: nat, paddr: nat, filesz: nat, memsz: nat,
                                         pflags: nat, align: nat)
  {
    predicate Words() {
      ptype < 0x1_0000_0000 && offset < 0x1_0000_0000 && vaddr < 0x1_0000_0000 && paddr < 0x1_0000_0000
      && filesz < 0x1_0000_0000 && memsz < 0x1_0000_0000 && pflags < 0x1_0000_0000 && align < 0x1_0000_0000
    }
    function Bytes(): seq<int> {
      LeWords([ptype, offset, vaddr, paddr, filesz, memsz, pflags, align])
    }
  }

  /** The ELF header's fields that a loader reads. */
  datatype ElfHeader = ElfHeader(ident: seq<int>, etype: nat, entry: nat, phoff: nat, phentsize: nat, phnum: nat) {
    predicate Fields() {
      |ident| == 12 && etype < 0x1_0000 && entry < 0x1_0000_0000 && phoff < 0x1_0000_0000
      && phentsize < 0x1_0000 && phnum < 0x1_0000
    }
    /** With any machine, version, section table, flags and header size. */
    function Bytes(machine: nat, version: nat, shoff: nat, flags: nat, ehsize: nat): seq<int> {
      ([0x7F, 0x45, 0x4C, 0x46] + ident) + (LeHalf(etype) + LeHalf(machine))
      + LeWords([version, entry, phoff, shoff, flags]) + (LeHalf(ehsize) + LeHalf(phentsize) + LeHalf(phnum))
    }
  }

  /** A buffer that begins with an ELF header. */
  ghost predicate Begins(h: seq<int>, e: ElfHeader) {
    |h| == HEADERS && e.Fields() && exists machine: nat, version: nat, shoff: nat, flags: nat, ehsize: nat ::
      h[..46] == e.Bytes(machine, version, shoff, flags, ehsize)
  }

  lemma HalfReads(h: seq<int>, at: nat, v: nat)
    requires at + 2 <= |h| && h[at..at + 2] == LeHalf(v) && v < 0x1_0000
    ensures Half(h, at) == v
  {
    assert h[at] == h[at..at + 2][0] && h[at + 1] == h[at..at + 2][1];
  }

  lemma WordReads(h: seq<int>, at: nat, v: nat)
    requires at + 4 <= |h| && h[at..at + 4] == LeWord(v) && v < 0x1_0000_0000
    ensures WordOf(h, at) == v
  {
    var lo, hi := v % 0x1_0000, v / 0x1_0000;
    WordHalves(v);
    assert h[at..at + 2] == h[at..at + 4][..2] == LeHalf(lo);
    assert h[at + 2..at + 4] == h[at..at + 4][2..] == LeHalf(hi);
    HalfReads(h, at, lo);
    HalfReads(h, at + 2, hi);
  }

  lemma WordHalves(v: nat)
    ensures LeWord(v) == LeHalf(v % 0x1_0000) + LeHalf(v / 0x1_0000)
  {
    var hi := v / 0x1_0000;
    assert v == hi * 0x1_0000 + v % 0x1_0000;
    assert v / 0x100_0000 == hi / 0x100;
    LowByte(hi, v % 0x1_0000);
  }

  lemma LowByte(hi: nat, lo: nat)
    requires lo < 0x1_0000
    ensures (hi * 0x1_0000 + lo) % 0x100 == lo % 0x100 && (hi * 0x1_0000 + lo) / 0x100 % 0x100 == lo / 0x100
  {
    assert (hi * 0x1_0000 + lo) / 0x100 == hi * 0x100 + lo / 0x100;
  }

  /** What the loader takes from the header is what the linker put there; it takes nothing else for an ELF file. */
  lemma HeaderReads(h: seq<int>, e: ElfHeader, got: int)
    requires Begins(h, e)
    ensures WordOf(h, 24) == e.entry && WordOf(h, 28) == e.phoff && Half(h, 42) == e.phentsize && Half(h, 44) == e.phnum
    ensures Accepted(h, got) <==>
      got >= 48 && e.etype == 2 && (e.phoff + e.phnum * e.phentsize) % 0x1_0000_0000 <= 0x400
  {
    hide WordOf, Half, LeWords, LeWord, LeHalf;
    var machine: nat, version: nat, shoff: nat, flags: nat, ehsize: nat :|
      h[..46] == e.Bytes(machine, version, shoff, flags, ehsize);
    HeaderFields(h, e, machine, version, shoff, flags, ehsize);
  }

  lemma HeaderFields(h: seq<int>, e: ElfHeader, machine: nat, version: nat, shoff: nat, flags: nat, ehsize: nat)
    requires |h| == HEADERS && e.Fields() && h[..46] == e.Bytes(machine, version, shoff, flags, ehsize)
    ensures h[..4] == [0x7F, 0x45, 0x4C, 0x46] && Half(h, 16) == e.etype
    ensures WordOf(h, 24) == e.entry && WordOf(h, 28) == e.phoff && Half(h, 42) == e.phentsize && Half(h, 44) == e.phnum
  {
    var ws := [version, e.entry, e.phoff, shoff, flags];
    LeWordsAt(ws, 1);
    LeWordsAt(ws, 2);
    var words := LeWords(ws);
    var magic, halves, tail := [0x7F, 0x45, 0x4C, 0x46] + e.ident, LeHalf(e.etype) + LeHalf(machine),
      LeHalf(ehsize) + LeHalf(e.phentsize) + LeHalf(e.phnum);
    assert halves[..2] == LeHalf(e.etype) && tail[2..4] == LeHalf(e.phentsize) && tail[4..6] == LeHalf(e.phnum);
    assert h[..46] == magic + halves + words + tail;
    hide WordOf, Half, LeWords, LeWord, LeHalf;
    HeaderParts(h, magic, halves, words, tail);
    HalfReads(h, 16, e.etype);
    WordReads(h, 24, e.entry);
    WordReads(h, 28, e.phoff);
    HalfReads(h, 42, e.phentsize);
    HalfReads(h, 44, e.phnum);
  }

  /** Where the header's parts lie in the buffer. */
  lemma HeaderParts(h: seq<int>, magic: seq<int>, halves: seq<int>, words: seq<int>, tail: seq<int>)
    requires |h| >= 46 && |magic| == 16 && |halves| == 4 && |words| == 20 && |tail| == 6
    requires h[..46] == magic + halves + words + tail
    ensures h[..4] == magic[..4] && h[16..18] == halves[..2]
    ensures h[24..28] == words[4..8] && h[28..32] == words[8..12]
    ensures h[42..44] == tail[2..4] && h[44..46] == tail[4..6]
  {
    var b := magic + halves + words + tail;
    assert forall k :: 0 <= k < 46 ==> h[k] == h[..46][k] == b[k];
  }

  /** A file that does not begin with the ELF magic is refused. */
  lemma NoMagicRefused(h: seq<int>, got: int)
    requires |h| == HEADERS && (h[0] != 0x7F || h[1] != 0x45 || h[2] != 0x4C || h[3] != 0x46)
    ensures !Accepted(h, got)
  {
    assert h[..4][0] == h[0] && h[..4][1] == h[1] && h[..4][2] == h[2] && h[..4][3] == h[3];
  }

  /** Each segment is the program header the linker put at its place in the table. */
  lemma SegmentReads(h: seq<int>, e: ElfHeader, i: nat, p: ProgramHeader)
    requires Begins(h, e) && i < e.phnum && p.Words()
    requires var at := e.phoff + i * e.phentsize; at + 32 <= |h| && h[at..at + 32] == p.Bytes()
    ensures |Segments(h)| == e.phnum
    ensures var s := Segments(h)[i];
      s.kind == p.ptype && s.offset == p.offset && s.paddr == p.paddr && s.filesz == p.filesz && s.memsz == p.memsz
  {
    HeaderReads(h, e, 0);
    var at := e.phoff + i * e.phentsize;
    assert Segments(h)[i] == SegmentAt(h, at);
    hide Segments, Begins;
    TableEntryReads(h, at, p);
  }

  lemma SliceOfSlice(h: seq<int>, at: nat, n: nat, lo: nat, hi: nat)
    requires at + n <= |h| && lo <= hi <= n
    ensures h[at..at + n][lo..hi] == h[at + lo..at + hi]
  {
    var a, b := h[at..at + n][lo..hi], h[at + lo..at + hi];
    assert |a| == |b|;
    forall i | 0 <= i < |a|
      ensures a[i] == b[i]
    {
      assert a[i] == h[at..at + n][lo + i] == h[at + (lo + i)];
      assert b[i] == h[at + lo + i];
    }
  }

  lemma TableEntryReads(h: seq<int>, at: nat, p: ProgramHeader)
    requires at + 32 <= |h| && h[at..at + 32] == p.Bytes() && p.Words()
    ensures SegmentAt(h, at) == Segment(p.ptype, p.offset, p.paddr, p.filesz, p.memsz)
  {
    var ws := [p.ptype, p.offset, p.vaddr, p.paddr, p.filesz, p.memsz, p.pflags, p.align];
    hide WordOf, LeWords, LeWord;
    forall k | 0 <= k < 8
      ensures WordOf(h, at + 4 * k) == ws[k]
    {
      LeWordsAt(ws, k);
      SliceOfSlice(h, at, 32, 4 * k, 4 * k + 4);
      WordReads(h, at + 4 * k, ws[k]);
    }
    assert WordOf(h, at + 4 * 0) == ws[0] && WordOf(h, at + 4 * 1) == ws[1] && WordOf(h, at + 4 * 3) == ws[3];
    assert WordOf(h, at + 4 * 4) == ws[4] && WordOf(h, at + 4 * 5) == ws[5];
  }

  /**
   Once loaded with room at each transfer: a segment's file bytes stand at its physical address, and behind them, up
   to its size in memory, there are zeros.
   */
  lemma ImageLoads(h: seq<int>, e: ElfHeader, i: nat, p: ProgramHeader, file: seq<int>, queued: nat -> nat, n: nat,
                   was: seq<int>, a: nat)
    requires Begins(h, e) && i < e.phnum && p.Words()
    requires var at := e.phoff + i * e.phentsize; at + 32 <= |h| && h[at..at + 32] == p.Bytes()
    requires p.ptype == 1 && p.paddr <= a < p.paddr + p.memsz && a < |was| && Ascending(Segments(h))
    requires forall t: nat :: n <= t < n + Transfers(Segments(h), |Segments(h)|) ==> queued(t) < 32
    ensures var ee := EeAt(Segments(h), file, queued, n, |Segments(h)|, was, a);
      && (a < p.paddr + p.filesz && p.offset + (a - p.paddr) < |file| ==> ee == file[p.offset + (a - p.paddr)])
      && (a >= p.paddr + p.filesz ==> ee == 0)
  {
    hide Transfers, EeAt, Ascending, Segments;
    SegmentReads(h, e, i, p);
    var segs := Segments(h);
    assert forall t: nat :: n <= t < n + Transfers(segs, |segs|) ==> Room(queued, t);
    RoomArrives(segs, queued, n, i, a);
    ImageByte(segs, file, queued, n, |segs|, i, was, a);
  }

  /** An executable of one 16-byte segment at offset 80, all ones, for address 0x100. */
  function SmallByte(k: nat): int {
    if k < 4 then [0x7F, 'E' as int, 'L' as int, 'F' as int][k]
    else if k == 16 then 2        // e_type
    else if k == 28 then 48       // e_phoff
    else if k == 42 then 32       // e_phentsize
    else if k == 44 then 1        // e_phnum
    else if k == 48 then PT_LOAD
    else if k == 52 then 80       // p_offset
    else if k == 61 then 1        // p_paddr
    else if k == 64 || k == 68 then 16
    else if k >= 80 then 1 else 0
  }

  function Small(): (file: seq<int>)
    ensures |file| == 96 && forall k :: 0 <= k < 96 ==> file[k] == SmallByte(k)
  {
    seq(96, k requires k >= 0 => SmallByte(k))
  }

  lemma SmallHalf(h: seq<int>, at: nat)
    requires |h| == HEADERS && h[..96] == Small() && at + 1 < 96
    ensures Half(h, at) == SmallByte(at) % 0x100 + 0x100 * (SmallByte(at + 1) % 0x100)
  {
    assert h[at] == h[..96][at] && h[at + 1] == h[..96][at + 1];
  }

  lemma SmallWord(h: seq<int>, at: nat, w: nat)
    requires |h| == HEADERS && h[..96] == Small() && at + 3 < 96
    requires w == SmallByte(at) % 0x100 + 0x100 * (SmallByte(at + 1) % 0x100)
                  + 0x1_0000 * (SmallByte(at + 2) % 0x100 + 0x100 * (SmallByte(at + 3) % 0x100))
    ensures WordOf(h, at) == w
  {
    hide Half;
    SmallHalf(h, at);
    SmallHalf(h, at + 2);
  }

  lemma SmallHeader(h: seq<int>)
    requires |h| == HEADERS && h[..96] == Small()
    ensures h[..4] == [0x7F, 'E' as int, 'L' as int, 'F' as int]
    ensures Half(h, 16) == 2 && WordOf(h, 28) == 48 && Half(h, 42) == 32 && Half(h, 44) == 1
  {
    hide ByteOf, Half, WordOf;
    assert forall k :: 0 <= k < 4 ==> h[k] == h[..96][k] == SmallByte(k);
    SmallHalf(h, 16);
    SmallHalf(h, 42);
    SmallHalf(h, 44);
    SmallWord(h, 28, 48);
  }

  lemma SmallSegment(h: seq<int>)
    requires |h| == HEADERS && h[..96] == Small()
    ensures SegmentAt(h, 48) == Segment(PT_LOAD, 80, 0x100, 16, 16)
  {
    hide WordOf;
    SmallWord(h, 48, PT_LOAD);
    SmallWord(h, 52, 80);
    SmallWord(h, 60, 0x100);
    SmallWord(h, 64, 16);
    SmallWord(h, 68, 16);
  }

  lemma SmallSegments(stale: seq<int>)
    requires |stale| == HEADERS
    ensures var h := HeaderBytes(Small(), stale, 96);
      Accepted(h, 96) && Segments(h) == [Segment(PT_LOAD, 80, 0x100, 16, 16)]
  {
    hide Half, WordOf, SegmentAt;
    var h := HeaderBytes(Small(), stale, 96);
    assert h[..96] == Small();
    SmallHeader(h);
    SmallSegment(h);
    assert Segments(h) == [SegmentAt(h, 48)];
  }

  lemma SmallNotThere(ee: seq<int>)
    requires |ee| > 0x110 && ee[0x100] == 0
    ensures !Placed([Segment(PT_LOAD, 80, 0x100, 16, 16)], Small(), ee)
  {
    var s := Segment(PT_LOAD, 80, 0x100, 16, 16);
    assert s.ByteAt(Small(), 0x100) == SmallByte(80);
    assert Placed([s], Small(), ee) ==> Holds([s][0], Small(), ee);
  }

  /** The answer does not tell: with the ring full, a sound executable loads with success and nothing is there. */
  method LoadIntoFullRing() returns (r: int, ee: seq<int>)
    ensures r == 0
    ensures !Placed([Segment(PT_LOAD, 80, 0x100, 16, 16)], Small(), ee)
  {
    hide EeAt, WouldPlace, Placed, Accepted, Segments, HeaderBytes;
    var loader := new Loader(Small(), true, n => 32, seq(0x200, i => 0));
    SmallSegments(loader.headers);
    var entry;
    r, entry := loader.LoadElf(96);
    ee := loader.ee;
    SmallNotThere(ee);
  }
}
