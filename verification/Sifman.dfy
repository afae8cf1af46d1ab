/**
 SIFMAN's sender (src/iop/sifman.cpp): a ring of runs that callers fill and the sending channel's
 interrupt drains, starting each run from the ring's own storage.
 */
module Sifman {

  const GROUPS := 32
  const TRANSFERS_MAX := 2
  const TAG_END := 0x8000_0000
  const TAG_DEST := 0x1000_0000
  const TAG_DEST_END := 0x9000_0000

  /** A caller's descriptor: IOP memory, its size in bytes, and where it lands in EE memory. */
  datatype Transfer = Transfer(src: int, dest: int, size: int, attr: int)

  /** What the channel reads at TADR: source, words, and the tag the EE's channel pops. */
  datatype SendBlock = SendBlock(address: int, words: int, tag: int, destination: int)

  /** A completion callback, or none. */
  datatype Done = Nothing | Call(routine: int, arg: int)

  datatype Group = Group(blocks: seq<SendBlock>, done: Done)

  function Quadwords(words: int): int { (words + 3) / 4 }

  predicate EndsEe(attr: int) { attr / 4 % 2 == 1 }

  function Describe(from: int, words: int, destination: int, last: bool, ends: bool): SendBlock {
    var quads := Quadwords(words);
    SendBlock(from + (if last then TAG_END else 0), quads * 4,
              (if last && ends then TAG_DEST_END else TAG_DEST) + quads, destination % 0x2000_0000)
  }

  /** Descriptor `k` of a run as its send block. */
  function BlockOf(list: seq<Transfer>, k: int): SendBlock
    requires 0 <= k < |list|
  {
    Describe(list[k].src, (list[k].size + 3) / 4, list[k].dest, k + 1 == |list|, EndsEe(list[k].attr))
  }

  function BlocksOf(list: seq<Transfer>): seq<SendBlock> {
    seq(|list|, k requires 0 <= k < |list| => BlockOf(list, k))
  }

  /** A block says all the channels need: source, padded length, destination, and who stops after it. */
  lemma BlockReadsBack(list: seq<Transfer>, k: int)
    requires 0 <= k < |list| && 0 <= list[k].src < 0x4000_0000 && 0 <= list[k].size < 0x10_0000 - 15
    requires 0 <= list[k].dest
    ensures var b, t := BlockOf(list, k), list[k];
      && b.address % 0x4000_0000 == t.src && (b.address >= 0x8000_0000 <==> k + 1 == |list|)
      && b.words == b.tag % 0x1_0000 * 4
      && t.size <= b.words * 4 < t.size + 16 && b.words % 4 == 0
      && b.tag / 0x1000_0000 % 8 == 1
      && (b.tag >= 0x8000_0000 <==> k + 1 == |list| && t.attr / 4 % 2 == 1)
      && b.destination % 0x2000_0000 == t.dest % 0x2000_0000 && b.destination < 0x8000_0000
  {
    var t := list[k];
    var quads := Quadwords((t.size + 3) / 4);
    assert quads < 0x1_0000;
  }

  ghost function Fired(groups: seq<Group>): seq<Done> {
    if groups == [] then []
    else Fired(groups[..|groups| - 1]) + if groups[|groups| - 1].done.Call? then [groups[|groups| - 1].done] else []
  }

  function Slot(head: nat, k: nat): (r: nat)
    ensures r < GROUPS
  {
    (head + k) % GROUPS
  }

  /** The ring's slots from the head on hold the last `queued` runs accepted. */
  ghost predicate Holds(queue: seq<Group>, head: nat, queued: nat, accepted: seq<Group>, finished: nat) {
    && |queue| == GROUPS && head < GROUPS && queued <= GROUPS && |accepted| == finished + queued
    && forall k: nat :: k < queued ==> queue[Slot(head, k)] == accepted[finished + k]
  }

  /** Filling the slot after the last group disturbs none of them. */
  lemma HoldsOneMore(queue: seq<Group>, head: nat, queued: nat, accepted: seq<Group>, finished: nat, g: Group)
    requires Holds(queue, head, queued, accepted, finished) && queued < GROUPS
    ensures Holds(queue[Slot(head, queued) := g], head, queued + 1, accepted + [g], finished)
  {
    var queue' := queue[Slot(head, queued) := g];
    forall k: nat | k < queued + 1
      ensures queue'[Slot(head, k)] == (accepted + [g])[finished + k]
    {
      if k < queued { assert Slot(head, k) != Slot(head, queued); }
    }
  }

  lemma HoldsSizes(queue: seq<Group>, head: nat, queued: nat, accepted: seq<Group>, finished: nat)
    requires Holds(queue, head, queued, accepted, finished)
    ensures |queue| == GROUPS && head < GROUPS && queued <= GROUPS && |accepted| == finished + queued
    ensures queued > 0 ==> queue[head] == accepted[finished]
  {
    if queued > 0 { assert Slot(head, 0) == head; }
  }

  /** Letting the head go leaves the rest where they were. */
  lemma HoldsOneLess(queue: seq<Group>, head: nat, queued: nat, accepted: seq<Group>, finished: nat, g: Group)
    requires Holds(queue, head, queued, accepted, finished) && queued > 0
    ensures queue[head] == accepted[finished]
    ensures Holds(queue[head := g], (head + 1) % GROUPS, queued - 1, accepted, finished + 1)
    ensures queued > 1 ==> queue[head := g][(head + 1) % GROUPS] == accepted[finished + 1]
  {
    assert Slot(head, 0) == head;
    var next := (head + 1) % GROUPS;
    forall k: nat | k < queued - 1
      ensures queue[head := g][Slot(next, k)] == accepted[finished + 1 + k]
    {
      assert Slot(next, k) == Slot(head, k + 1) && Slot(head, k + 1) != head;
    }
    if queued > 1 { assert Slot(next, 0) == next; }
  }

  /** The runs accepted once `sends` have been offered in turn, `finished` of the runs being over. */
  ghost function Offered(accepted: seq<Group>, finished: nat, sends: seq<(seq<Transfer>, Done)>): seq<Group> {
    if sends == [] then accepted
    else
      var before := Offered(accepted, finished, sends[..|sends| - 1]);
      var (list, done) := sends[|sends| - 1];
      if 0 < |list| <= 2 && |before| - finished < 32 then before + [Group(BlocksOf(list), done)]
      else before
  }

  class Sender {
    var queue: seq<Group>
    var head: nat
    var queued: nat
    /** The slot TADR points into, while the channel is busy. */
    var channel: nat
    var busy: bool

    /** Every run accepted, how many have finished, the runs the channel was started on, and the callbacks made. */
    ghost var accepted: seq<Group>
    ghost var finished: nat
    ghost var started: seq<Group>
    ghost var fired: seq<Done>

    ghost predicate Valid()
      reads this
    {
      && Holds(queue, head, queued, accepted, finished)
      && (busy <==> queued > 0) && (busy ==> channel == head)
      && started == accepted[..finished + if queued > 0 then 1 else 0]
      && fired == Fired(accepted[..finished])
    }

    constructor ()
      ensures Valid() && accepted == [] && finished == 0
    {
      queue := seq(GROUPS, _ => Group([], Nothing));
      head, queued, channel, busy := 0, 0, 0, false;
      accepted, finished, started, fired := [], 0, [], [];
    }

    /** Start the run at the head of the ring. */
    method StartHead()
      requires |queue| == GROUPS && head < GROUPS
      modifies this`channel, this`busy, this`started
      ensures channel == head && busy && started == old(started) + [queue[head]]
    {
      channel := head;
      busy := true;
      started := started + [queue[channel]];
    }

    method Enqueue(blocks: seq<SendBlock>, done: Done) returns (answer: int)
      requires Valid()
      modifies this
      ensures Valid() && finished == old(finished) && fired == old(fired)
      ensures answer == if 0 < |blocks| <= 2 && old(queued) < 32 then 1 else 0
      ensures answer == 1 ==> accepted == old(accepted) + [Group(blocks, done)]
      ensures answer == 0 ==>
        accepted == old(accepted) && started == old(started) && queue == old(queue) && queued == old(queued)
    {
      hide Holds;
      HoldsSizes(queue, head, queued, accepted, finished);
      if |blocks| == 0 || |blocks| > TRANSFERS_MAX || queued == GROUPS { return 0; }
      var slot := (head + queued) % GROUPS;
      HoldsOneMore(queue, head, queued, accepted, finished, Group(blocks, done));
      queue := queue[slot := Group(blocks, done)];
      accepted := accepted + [Group(blocks, done)];
      var idle := queued == 0;
      queued := queued + 1;
      if idle {
        StartHead();
      }
      assert accepted[..finished] == old(accepted)[..finished];
      answer := 1;
    }

    /** Ordinals 7 and 32. */
    method QueueTransfers(list: seq<Transfer>, done: Done) returns (answer: int)
      requires Valid()
      modifies this
      ensures Valid() && finished == old(finished) && fired == old(fired)
      ensures answer == 0 <==> |list| == 0 || |list| > 2 || old(queued) == 32
      ensures answer != 0 ==> accepted == old(accepted) + [Group(BlocksOf(list), done)]
      ensures answer == 0 ==> accepted == old(accepted)
    {
      if |list| == 0 || |list| > TRANSFERS_MAX { return 0; }
      var run: seq<SendBlock> := [];
      var k := 0;
      while k < |list|
        invariant 0 <= k <= |list| && run == BlocksOf(list)[..k]
      {
        var t := list[k];
        run := run + [Describe(t.src, (t.size + 3) / 4, t.dest, k + 1 == |list|, EndsEe(t.attr))];
        k := k + 1;
      }
      assert run == BlocksOf(list);
      answer := Enqueue(run, done);
    }

    /** The sending channel's interrupt; `sends` is what the callback queues in turn, if there is a callback. */
    method SendFinished(sends: seq<(seq<Transfer>, Done)>)
      requires Valid()
      modifies this
      ensures Valid()
      ensures old(queued) == 0 ==> finished == old(finished) && accepted == old(accepted) && fired == old(fired)
      ensures old(queued) > 0 ==>
        && finished == old(finished) + 1
        && accepted == (if old(accepted)[old(finished)].done.Call? then Offered(old(accepted), finished, sends)
          else old(accepted))
        && fired == old(fired) +
          (if old(accepted)[old(finished)].done.Call? then [old(accepted)[old(finished)].done] else [])
    {
      hide Holds, Fired;
      HoldsSizes(queue, head, queued, accepted, finished);
      if queued == 0 { return; }
      var callback := Retire();
      if callback.Call? {
        RunCallback(sends);
      }
    }

    /** The head group is over: the next one starts, and the callback it had is due. */
    method Retire() returns (callback: Done)
      requires Valid() && queued > 0
      modifies this
      ensures Valid() && finished == old(finished) + 1 && accepted == old(accepted)
      ensures finished <= |accepted| && callback == accepted[old(finished)].done
      ensures fired == old(fired) + if callback.Call? then [callback] else []
    {
      hide Holds, Fired;
      HoldsSizes(queue, head, queued, accepted, finished);
      callback := queue[head].done;
      HoldsOneLess(queue, head, queued, accepted, finished, queue[head].(done := Nothing));
      Drop(accepted, finished);
      queue := queue[head := queue[head].(done := Nothing)];
      head := (head + 1) % GROUPS;
      queued := queued - 1;
      finished := finished + 1;
      busy := false;
      fired := fired + if callback.Call? then [callback] else [];
      if queued != 0 {
        StartHead();
      }
    }

    /** What a callback does: queue its runs in turn, each refused when the ring is full. */
    method RunCallback(sends: seq<(seq<Transfer>, Done)>)
      requires Valid()
      modifies this
      ensures Valid() && finished == old(finished) && fired == old(fired)
      ensures accepted == Offered(old(accepted), finished, sends)
    {
      hide Holds, Fired;
      var k := 0;
      while k < |sends|
        invariant 0 <= k <= |sends| && Valid()
        invariant finished == old(finished) && accepted == Offered(old(accepted), finished, sends[..k])
        invariant fired == old(fired)
      {
        assert sends[..k + 1][..k] == sends[..k];
        HoldsSizes(queue, head, queued, accepted, finished);
        var _ := QueueTransfers(sends[k].0, sends[k].1);
        k := k + 1;
      }
      assert sends[..k] == sends;
    }

    /** Ordinal 8: negative once every accepted run has finished. */
    method SifDmaStat() returns (r: int)
      requires Valid()
      ensures r == if finished == |accepted| then -1 else 0
    {
      r := if queued != 0 then 0 else -1;
    }
  }

  lemma Drop(accepted: seq<Group>, finished: nat)
    requires finished < |accepted|
    ensures accepted[..finished + 1] == accepted[..finished] + [accepted[finished]]
    ensures Fired(accepted[..finished + 1]) ==
      Fired(accepted[..finished]) + if accepted[finished].done.Call? then [accepted[finished].done] else []
  {
    assert accepted[..finished + 1][..finished] == accepted[..finished];
  }
}
