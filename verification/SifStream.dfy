/**
 The framed byte stream of SIF0 (tools/ps2sim.py): the IOP's channel walks a run's send blocks and
 pushes each one's EE tag and data; the EE's channel pops tags to learn where the data goes, and
 stops where a tag tells it to.
 */
module SifStream {
  import opened Sifman

  const QUADWORD := 16
  const EE_RAM := 0x200_0000

  // ----- words and bytes --------------------------------------------------------------------

  function Le32(w: int): (b: seq<int>)
    ensures |b| == 4
  {
    [w % 0x100, w / 0x100 % 0x100, w / 0x1_0000 % 0x100, w / 0x100_0000 % 0x100]
  }

  function FromLe32(b: seq<int>): int
    requires |b| == 4
  {
    b[0] + b[1] * 0x100 + b[2] * 0x1_0000 + b[3] * 0x100_0000
  }

  lemma WordsReadBack(w: int)
    requires 0 <= w < 0x1_0000_0000
    ensures FromLe32(Le32(w)) == w
  {
    var a, b, c := w / 0x100, w / 0x1_0000, w / 0x100_0000;
    assert b == a / 0x100 && c == b / 0x100 && c < 0x100;
    assert w == a * 0x100 + w % 0x100 && a == b * 0x100 + a % 0x100 && b == c * 0x100 + b % 0x100;
  }

  function Zeros(n: nat): (z: seq<int>)
    ensures |z| == n
  {
    seq(n, _ => 0)
  }

  /** What a DMA read of `length` bytes sees; past the end of memory it sees zeros. */
  function ReadPadded(memory: seq<int>, at: int, length: int): (r: seq<int>)
    requires 0 <= at && 0 <= length
    ensures |r| == length
  {
    seq(length, i requires 0 <= i < length => if at + i < |memory| then memory[at + i] else 0)
  }

  function Written(memory: seq<int>, at: int, data: seq<int>): (r: seq<int>)
    ensures |r| == |memory|
  {
    seq(|memory|, i requires 0 <= i < |memory| => if at <= i < at + |data| then data[i - at] else memory[i])
  }

  // ----- packets -----------------------------------------------------------------------------

  /** One block as it crosses: where it lands, its quadwords, and whether the EE's channel stops after it. */
  datatype Packet = Packet(dest: int, data: seq<int>, ends: bool)

  ghost predicate Fits(p: Packet, ram: int) {
    && 0 <= p.dest && p.dest < 0x2000_0000 && p.dest + |p.data| <= ram
    && |p.data| % QUADWORD == 0 && |p.data| < 0x1_0000 * QUADWORD
  }

  function TagOf(p: Packet): int {
    (if p.ends then TAG_DEST_END else TAG_DEST) + |p.data| / QUADWORD
  }

  function Encoded(p: Packet): seq<int> {
    Le32(TagOf(p)) + Le32(p.dest) + Zeros(8) + p.data
  }

  function Stream(ps: seq<Packet>): seq<int> {
    if ps == [] then [] else Encoded(ps[0]) + Stream(ps[1..])
  }

  lemma {:induction false} StreamAppend(a: seq<Packet>, b: seq<Packet>)
    ensures Stream(a + b) == Stream(a) + Stream(b)
  {
    if a == [] {
      assert a + b == b;
    } else {
      assert (a + b)[1..] == a[1..] + b;
      StreamAppend(a[1..], b);
    }
  }

  /** EE memory once the packets have landed in order. */
  function Landed(memory: seq<int>, ps: seq<Packet>): (r: seq<int>)
    ensures |r| == |memory|
    decreases |ps|
  {
    if ps == [] then memory
    else
      var m := Landed(memory, ps[..|ps| - 1]);
      Written(m, ps[|ps| - 1].dest, ps[|ps| - 1].data)
  }

  /** How many packets the EE's channel takes before it stops: up to the first that ends it, or all. */
  function Taken(ps: seq<Packet>): (n: int)
    ensures 0 <= n <= |ps|
    ensures forall i :: 0 <= i < n - 1 ==> !ps[i].ends
    ensures n < |ps| ==> n > 0 && ps[n - 1].ends
  {
    if ps == [] then 0 else if ps[0].ends then 1 else 1 + Taken(ps[1..])
  }

  // ----- the IOP's side --------------------------------------------------------------------------

  /** What each descriptor of a run puts on the wire, its bytes as IOP memory holds them when the run starts. */
  function PacketOf(list: seq<Transfer>, k: int, iop: seq<int>): Packet
    requires 0 <= k < |list| && 0 <= list[k].src && 0 <= list[k].size
  {
    Packet(list[k].dest % 0x2000_0000, ReadPadded(iop, list[k].src, (list[k].size + 15) / 16 * 16),
           k + 1 == |list| && EndsEe(list[k].attr))
  }

  function PacketsOf(list: seq<Transfer>, iop: seq<int>): seq<Packet>
    requires forall k :: 0 <= k < |list| ==> 0 <= list[k].src && 0 <= list[k].size
  {
    seq(|list|, k requires 0 <= k < |list| => PacketOf(list, k, iop))
  }

  ghost predicate Sendable(list: seq<Transfer>) {
    forall k :: 0 <= k < |list| ==>
      0 <= list[k].src < 0x4000_0000 && 0 <= list[k].size < 0x10_0000 - 15 && 0 <= list[k].dest
  }

  /** The IOP channel's walk of a run's blocks, from the first to the one marked as the last. */
  method IopSend(blocks: seq<SendBlock>, iop: seq<int>, fifo0: seq<int>, ghost list: seq<Transfer>)
    returns (fifo: seq<int>)
    requires Sendable(list) && list != [] && blocks == BlocksOf(list)
    ensures fifo == fifo0 + Stream(PacketsOf(list, iop))
  {
    hide Stream, Encoded, PacketsOf, Le32, Zeros, TagOf, PacketOf;
    fifo := fifo0;
    var k := 0;
    StreamNone();
    ghost var ps := PacketsOf(list, iop);
    PacketsAt(list, 0, iop);
    assert ps[..0] == [];
    while true
      invariant 0 <= k < |list|
      invariant fifo == fifo0 + Stream(ps[..k])
      decreases |list| - k
    {
      var header := blocks[k].address;
      BlockReadsBack(list, k);
      var source := header % 0x4000_0000;
      var length := (blocks[k].words * 4 + QUADWORD - 1) / QUADWORD * QUADWORD;
      BlockIsPacket(list, k, iop);
      fifo := fifo + (Le32(blocks[k].tag) + Le32(blocks[k].destination) + Zeros(8));
      fifo := fifo + ReadPadded(iop, source, length);
      PacketsAt(list, k, iop);
      assert ps[..k + 1] == ps[..k] + [ps[k]];
      StreamSnoc(ps[..k], ps[k]);
      k := k + 1;
      if header >= TAG_END { break; }
    }
    assert ps[..k] == ps;
  }

  lemma PacketsAt(list: seq<Transfer>, k: int, iop: seq<int>)
    requires Sendable(list) && 0 <= k < |list|
    ensures |PacketsOf(list, iop)| == |list| && PacketsOf(list, iop)[k] == PacketOf(list, k, iop)
  {
  }

  lemma StreamNone()
    ensures Stream([]) == []
  {
  }

  lemma StreamSnoc(ps: seq<Packet>, p: Packet)
    ensures Stream(ps + [p]) == Stream(ps) + (Le32(TagOf(p)) + Le32(p.dest) + Zeros(8)) + p.data
  {
    StreamAppend(ps, [p]);
    assert [p][1..] == [];
    assert Stream([p]) == Encoded(p) + Stream([]);
  }

  lemma PacketsFit(list: seq<Transfer>, iop: seq<int>, ram: int)
    requires Sendable(list)
    requires forall k :: 0 <= k < |list| ==> list[k].dest % 0x2000_0000 + (list[k].size + 15) / 16 * 16 <= ram
    ensures forall i :: 0 <= i < |PacketsOf(list, iop)| ==> Fits(PacketsOf(list, iop)[i], ram)
  {
  }

  /** A send block carries, ready-made, the packet's own tag, and names its bytes. */
  lemma BlockIsPacket(list: seq<Transfer>, k: int, iop: seq<int>)
    requires Sendable(list) && 0 <= k < |list|
    ensures var b, p := BlockOf(list, k), PacketOf(list, k, iop);
      && b.tag == TagOf(p) && b.destination == p.dest
      && (b.words * 4 + QUADWORD - 1) / QUADWORD * QUADWORD == |p.data|
      && p.data == ReadPadded(iop, b.address % 0x4000_0000, |p.data|)
  {
    BlockReadsBack(list, k);
    var size := list[k].size;
    assert Quadwords((size + 3) / 4) == (size + 15) / 16;
  }

  // ----- the EE's side ------------------------------------------------------------------------------

  lemma TagParts(p: Packet, ram: int)
    requires Fits(p, ram)
    ensures 0 <= TagOf(p) < 0x1_0000_0000 && TagOf(p) % 0x1_0000 * QUADWORD == |p.data|
    ensures TagOf(p) / 0x1000_0000 % 8 == 1 && (TagOf(p) >= 0x8000_0000 <==> p.ends)
  {
    assert |p.data| / QUADWORD < 0x1_0000;
  }

  /** The first packet of the stream is what the EE's channel reads there. */
  lemma HeadDecodes(ps: seq<Packet>, ram: int)
    requires ps != [] && Fits(ps[0], ram)
    ensures var fifo, p := Stream(ps), ps[0];
      && |fifo| >= QUADWORD + |p.data|
      && FromLe32(fifo[0..4]) == TagOf(p) && FromLe32(fifo[4..8]) == p.dest
      && fifo[QUADWORD..][..|p.data|] == p.data && fifo[QUADWORD..][|p.data|..] == Stream(ps[1..])
  {
    hide Le32, FromLe32, TagOf;
    var p, rest := ps[0], Stream(ps[1..]);
    var fifo := Stream(ps);
    TagParts(p, ram);
    WordsReadBack(TagOf(p));
    WordsReadBack(p.dest);
    assert fifo[0..4] == Le32(TagOf(p));
    assert fifo[4..8] == Le32(p.dest);
    assert fifo[QUADWORD..] == p.data + rest;
  }

  lemma StreamEmpty(ps: seq<Packet>)
    ensures |Stream(ps)| >= QUADWORD <==> ps != []
  {
  }

  lemma LandOne(memory: seq<int>, ps: seq<Packet>, p: Packet)
    requires |memory| == EE_RAM && Fits(p, EE_RAM)
    ensures Landed(memory, ps + [p]) == Written(Landed(memory, ps), p.dest % EE_RAM, p.data)
  {
    assert (ps + [p])[..|ps|] == ps;
    var m := Landed(memory, ps);
    if p.data == [] {
      assert Written(m, p.dest, []) == m && Written(m, p.dest % EE_RAM, []) == m;
    } else {
      assert p.dest % EE_RAM == p.dest;
    }
  }

  /** The bytes a descriptor writes, its size rounded up to whole quadwords. */
  ghost predicate Reaches(t: Transfer, at: int) {
    t.dest % 0x2000_0000 <= at < t.dest % 0x2000_0000 + (t.size + 15) / 16 * 16
  }

  /** The last descriptor of a run to reach a byte. */
  ghost predicate Decides(list: seq<Transfer>, k: int, at: int)
    requires 0 <= k < |list|
  {
    Reaches(list[k], at) && forall i :: k < i < |list| ==> !Reaches(list[i], at)
  }

  lemma LandsBefore(memory: seq<int>, list: seq<Transfer>, iop: seq<int>, n: int)
    requires Sendable(list) && 0 <= n < |list|
    ensures var ps := PacketsOf(list, iop);
      Landed(memory, ps[..n + 1]) == Written(Landed(memory, ps[..n]), ps[n].dest, ps[n].data)
  {
    var ps := PacketsOf(list, iop);
    assert ps[..n + 1][..n] == ps[..n];
  }

  lemma {:induction false} LandsLast(memory: seq<int>, list: seq<Transfer>, iop: seq<int>, k: int, n: int, at: int)
    requires Sendable(list) && 0 <= k < n <= |list| && 0 <= at < |memory|
    requires Reaches(list[k], at) && forall i :: k < i < n ==> !Reaches(list[i], at)
    ensures var from := list[k].src + at - list[k].dest % 0x2000_0000;
      Landed(memory, PacketsOf(list, iop)[..n])[at] == if from < |iop| then iop[from] else 0
  {
    LandsBefore(memory, list, iop, n - 1);
    if k < n - 1 { LandsLast(memory, list, iop, k, n - 1, at); }
  }

  lemma {:induction false} LandsNowhere(memory: seq<int>, list: seq<Transfer>, iop: seq<int>, n: int, at: int)
    requires Sendable(list) && 0 <= n <= |list| && 0 <= at < |memory|
    requires forall i :: 0 <= i < n ==> !Reaches(list[i], at)
    ensures Landed(memory, PacketsOf(list, iop)[..n])[at] == memory[at]
  {
    if n > 0 {
      LandsBefore(memory, list, iop, n - 1);
      LandsNowhere(memory, list, iop, n - 1, at);
    }
  }

  lemma {:induction false} TakesAll(ps: seq<Packet>)
    requires forall i :: 0 <= i < |ps| - 1 ==> !ps[i].ends
    ensures Taken(ps) == |ps|
  {
    if |ps| > 1 { TakesAll(ps[1..]); }
  }

  /**
   What a whole run does to EE memory, byte by byte: the last descriptor to reach a byte decides it, and it
   holds that descriptor's source byte; no other byte changes, and only the last block can stop the channel.
   */
  lemma RunLands(memory: seq<int>, list: seq<Transfer>, iop: seq<int>)
    requires Sendable(list)
    ensures var ps := PacketsOf(list, iop);
      && Taken(ps) == |ps| == |list| && |Landed(memory, ps)| == |memory|
      && forall i :: 0 <= i < |list| ==> (ps[i].ends <==> i == |list| - 1 && list[i].attr / 4 % 2 == 1)
    ensures forall k, at :: 0 <= k < |list| && 0 <= at < |memory| && Decides(list, k, at) ==>
      var from := list[k].src + at - list[k].dest % 0x2000_0000;
      Landed(memory, PacketsOf(list, iop))[at] == if from < |iop| then iop[from] else 0
    ensures forall at :: 0 <= at < |memory| && (forall i :: 0 <= i < |list| ==> !Reaches(list[i], at)) ==>
      Landed(memory, PacketsOf(list, iop))[at] == memory[at]
  {
    hide Landed;
    var ps := PacketsOf(list, iop);
    assert ps[..|list|] == ps;
    TakesAll(ps);
    forall k, at | 0 <= k < |list| && 0 <= at < |memory| && Decides(list, k, at)
      ensures var from := list[k].src + at - list[k].dest % 0x2000_0000;
        Landed(memory, ps)[at] == if from < |iop| then iop[from] else 0
    {
      LandsLast(memory, list, iop, k, |list|, at);
    }
    forall at | 0 <= at < |memory| && (forall i :: 0 <= i < |list| ==> !Reaches(list[i], at))
      ensures Landed(memory, ps)[at] == memory[at]
    {
      LandsNowhere(memory, list, iop, |list|, at);
    }
  }

  class EeChannel {
    var fifo: seq<int>
    var memory: seq<int>
    /** The channel is started and has not yet been stopped by a tag. */
    var armed: bool

    /** EE memory at the start, the packets that have landed since, and those still in the FIFO. */
    ghost var initial: seq<int>
    ghost var landed: seq<Packet>
    ghost var waiting: seq<Packet>

    ghost predicate Valid()
      reads this
    {
      && |initial| == EE_RAM
      && (forall i :: 0 <= i < |landed| ==> Fits(landed[i], EE_RAM))
      && (forall i :: 0 <= i < |waiting| ==> Fits(waiting[i], EE_RAM))
      && fifo == Stream(waiting)
      && memory == Landed(initial, landed)
    }

    constructor (ram: seq<int>)
      requires |ram| == EE_RAM
      ensures Valid() && initial == ram && landed == [] && waiting == [] && !armed
    {
      fifo, memory, armed := [], ram, false;
      initial, landed, waiting := ram, [], [];
    }

    /** A run of the IOP's goes out whole. */
    method Push(blocks: seq<SendBlock>, iop: seq<int>, ghost list: seq<Transfer>)
      requires Valid() && Sendable(list) && list != [] && blocks == BlocksOf(list)
      requires forall k :: 0 <= k < |list| ==> list[k].dest % 0x2000_0000 + (list[k].size + 15) / 16 * 16 <= EE_RAM
      modifies this`fifo, this`waiting
      ensures Valid() && waiting == old(waiting) + PacketsOf(list, iop)
    {
      hide Stream, Landed;
      var pushed := IopSend(blocks, iop, fifo, list);
      StreamAppend(waiting, PacketsOf(list, iop));
      PacketsFit(list, iop, EE_RAM);
      fifo := pushed;
      waiting := waiting + PacketsOf(list, iop);
    }

    /** The receiving channel's chain mode; true once a tag has told it to stop. */
    method Receive() returns (finished: bool)
      requires Valid()
      modifies this`fifo, this`memory, this`landed, this`waiting
      ensures Valid() && initial == old(initial)
      ensures var n := Taken(old(waiting));
        && landed == old(landed) + old(waiting)[..n] && waiting == old(waiting)[n..]
        && (finished <==> n > 0 && old(waiting)[n - 1].ends)
        && (!finished ==> waiting == [])
    {
      hide Stream, Landed, Taken, FromLe32, TagOf, Written;
      ghost var all := waiting;
      ghost var k := 0;
      StreamEmpty(waiting);
      while |fifo| >= QUADWORD
        invariant Valid() && initial == old(initial) && |memory| == |initial|
        invariant 0 <= k <= |all| && waiting == all[k..] && landed == old(landed) + all[..k]
        invariant forall i :: 0 <= i < k ==> !all[i].ends
        invariant |fifo| >= QUADWORD <==> waiting != []
        decreases |all| - k
      {
        ghost var p := waiting[0];
        HeadDecodes(waiting, EE_RAM);
        TagParts(p, EE_RAM);
        LandOne(initial, landed, p);
        StreamEmpty(waiting[1..]);
        var tag, address := FromLe32(fifo[0..4]), FromLe32(fifo[4..8]);
        var length := tag % 0x1_0000 * QUADWORD;
        if |fifo| < QUADWORD + length { return false; }
        var data := fifo[QUADWORD..][..length];
        fifo := fifo[QUADWORD..][length..];
        memory := Written(memory, address % EE_RAM, data);
        landed, waiting := landed + [p], waiting[1..];
        k := k + 1;
        if tag / 0x1000_0000 % 8 == 7 || tag >= 0x8000_0000 {
          TakenIs(all, k);
          return true;
        }
      }
      TakenIs(all, k);
      finished := false;
    }

    /** The driver starts the channel, which serves what is there at once. */
    method Arm()
      requires Valid()
      modifies this
      ensures Valid() && initial == old(initial) && landed + waiting == old(landed + waiting)
      ensures var n := Taken(old(waiting));
        && waiting == old(waiting)[n..] && (armed <==> n == 0 || !old(waiting)[n - 1].ends)
    {
      armed := true;
      Service();
    }

    /** A chance to go on, if it is started. */
    method Service()
      requires Valid()
      modifies this
      ensures Valid() && initial == old(initial) && landed + waiting == old(landed + waiting)
      ensures !old(armed) ==> !armed && landed == old(landed) && waiting == old(waiting)
      ensures old(armed) ==>
        var n := Taken(old(waiting));
        waiting == old(waiting)[n..] && (armed <==> n == 0 || !old(waiting)[n - 1].ends)
    {
      if armed {
        var finished := Receive();
        armed := !finished;
      }
    }
  }

  lemma {:induction false} TakenIs(ps: seq<Packet>, k: int)
    requires 0 <= k <= |ps| && (forall i :: 0 <= i < k - 1 ==> !ps[i].ends)
    requires (k > 0 && ps[k - 1].ends) || (k == |ps| && (k > 0 ==> !ps[k - 1].ends))
    ensures Taken(ps) == k
  {
    if k > 1 { TakenIs(ps[1..], k - 1); }
  }
}
