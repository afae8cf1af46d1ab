/**
 HEAPLIB's growable heap (src/iop/heaplib.cpp) as its arenas' views: the first arena inside the heap object,
 chunks taken from SYSMEM when no arena can serve, and chunks given back once empty.
 Addresses are in eight-byte units; SYSMEM grants whole 0x100-byte blocks.
 */
module Heap {
  import opened Common
  import opened HeapTiles

  /** A chunk taken from SYSMEM: its list node at `base`, its arena one unit further. */
  datatype Chunk = Chunk(base: int, view: View)

  /** SYSMEM's answer to a request: a block's unit address and its size in bytes. */
  datatype Grant = Grant(base: int, bytes: int)

  /**
   The heap object's block runs from `base` up to `top`; `grown` is the chunk list, newest first, and `home` the
   arena inside the heap object, if it was prepared.
   */
  datatype State = State(base: int, top: int, growth: int, grown: seq<Chunk>, home: Option<View>,
                         granted: multiset<int>, returned: multiset<int>)

  const CHUNK_OVERHEAD := 0x28

  // ----- SYSMEM's contract -------------------------------------------------------------

  /** What the growth path asks SYSMEM for; the 32-bit sum wraps. */
  function ChunkBytes(growth: int, size: int): (bytes: int)
    ensures bytes >= growth && (bytes == growth || bytes == (size + 0x28) % 0x1_0000_0000)
    ensures bytes >= (size + 0x28) % 0x1_0000_0000
  {
    var floor := (size + CHUNK_OVERHEAD) % WORD;
    if growth > floor then growth else floor
  }

  /** Whole units of 0x100 bytes, never fewer than asked, outside every block held; null is no block. */
  ghost predicate GrantOk(h: State, size: int, g: Grant) {
    && g.bytes % 0x100 == 0 && ChunkBytes(h.growth, size) <= g.bytes < 0x8000_0000 && g.bytes > 0 && g.base > 0
    && (forall c :: c in h.grown ==> g.base + g.bytes / 8 <= c.base || c.view.sentinel < g.base)
    && (g.base + g.bytes / 8 <= h.base || h.top <= g.base)
  }

  /** The chunk made of a grant: node, arena header, and one free block before the sentinel. */
  function NewChunk(g: Grant): Chunk {
    Chunk(g.base, Fresh(g.base + 3, (g.bytes - 8 - 0x10) / 8 - 1))
  }

  // ----- the state ----------------------------------------------------------------------

  ghost predicate ValidChunk(c: Chunk) {
    ValidView(c.view) && c.view.first == c.base + 3 && c.base > 0
  }

  ghost predicate Apart(a: Chunk, b: Chunk) {
    a.view.sentinel < b.base || b.view.sentinel < a.base
  }

  ghost predicate ValidState(h: State) {
    && 0 < h.base && h.base + 4 <= h.top
    && (forall i {:trigger h.grown[i]} :: 0 <= i < |h.grown| ==> ValidChunk(h.grown[i]))
    && (forall i, j {:trigger Apart(h.grown[i], h.grown[j])} :: 0 <= i < j < |h.grown| ==>
      Apart(h.grown[i], h.grown[j]))
    && (forall i {:trigger h.grown[i]} :: 0 <= i < |h.grown| ==> OffHome(h, h.grown[i]))
    && (h.home.Some? ==> ValidView(h.home.value) && h.home.value.first == h.base + 4 && h.home.value.sentinel < h.top)
  }

  /** A chunk lies outside the heap object's own block. */
  ghost predicate OffHome(h: State, c: Chunk) {
    c.view.sentinel < h.base || h.top <= c.base
  }

  /** Every grown chunk holds a live block. */
  ghost predicate Busy(h: State) {
    forall i :: 0 <= i < |h.grown| ==> LiveUnits(h.grown[i].view.tiles) > 0
  }

  function Bases(cs: seq<Chunk>): multiset<int> {
    if cs == [] then multiset{} else multiset{cs[0].base} + Bases(cs[1..])
  }

  /** SYSMEM got back everything it granted except what is still held. */
  ghost predicate Balanced(h: State) {
    h.granted == h.returned + Bases(h.grown) + multiset{h.base}
  }

  lemma {:induction false} BasesAppend(a: seq<Chunk>, b: seq<Chunk>)
    ensures Bases(a + b) == Bases(a) + Bases(b)
  {
    if a == [] {
      assert a + b == b;
    } else {
      assert (a + b)[1..] == a[1..] + b;
      BasesAppend(a[1..], b);
    }
  }

  lemma BasesAround(cs: seq<Chunk>, i: int, c: Chunk)
    requires 0 <= i < |cs| && c.base == cs[i].base
    ensures Bases(cs[i := c]) == Bases(cs)
    ensures Bases(cs[..i] + cs[i + 1..]) + multiset{cs[i].base} == Bases(cs)
  {
    assert cs == cs[..i] + ([cs[i]] + cs[i + 1..]);
    assert cs[i := c] == cs[..i] + ([c] + cs[i + 1..]);
    BasesAppend(cs[..i], [cs[i]] + cs[i + 1..]);
    BasesAppend(cs[..i], [c] + cs[i + 1..]);
    BasesAppend(cs[..i], cs[i + 1..]);
    BasesAppend([cs[i]], cs[i + 1..]);
    BasesAppend([c], cs[i + 1..]);
  }

  // ----- allocation -------------------------------------------------------------------------

  function FirstTrue(bs: seq<bool>): (i: int)
    ensures 0 <= i <= |bs|
    ensures (forall k :: 0 <= k < i ==> !bs[k]) && (i < |bs| ==> bs[i])
  {
    if bs == [] || bs[0] then 0 else 1 + FirstTrue(bs[1..])
  }

  /** The first chunk, newest first, whose arena can serve `units`; `|cs|` when none can. */
  function Serving(cs: seq<Chunk>, units: int): int {
    FirstTrue(seq(|cs|, i requires 0 <= i < |cs| => Allocate(cs[i].view, units).1.Some?))
  }

  lemma ServingFirst(cs: seq<Chunk>, units: int)
    ensures var i := Serving(cs, units);
      && 0 <= i <= |cs|
      && (forall k :: 0 <= k < i ==> Allocate(cs[k].view, units).1.None?)
      && (i < |cs| ==> Allocate(cs[i].view, units).1.Some?)
  {
    hide Allocate;
    var bs := seq(|cs|, i requires 0 <= i < |cs| => Allocate(cs[i].view, units).1.Some?);
    var i := FirstTrue(bs);
    forall k | 0 <= k < i
      ensures Allocate(cs[k].view, units).1.None?
    {
      assert !bs[k];
    }
  }

  /** AllocHeapMemory, given SYSMEM's answer in case it is asked. */
  function AllocHeap(h: State, size: int, grant: Option<Grant>): (State, Option<int>) {
    var units := UnitsFor(size);
    var i := Serving(h.grown, units);
    if i < |h.grown| then
      var (v, r) := Allocate(h.grown[i].view, units);
      (h.(grown := h.grown[i := h.grown[i].(view := v)]), r)
    else if h.home.Some? && Allocate(h.home.value, units).1.Some? then
      var (v, r) := Allocate(h.home.value, units);
      (h.(home := Some(v)), r)
    else if h.growth == 0 || grant.None? then (h, None)
    else
      var c := NewChunk(grant.value);
      var (v, r) := Allocate(c.view, units);
      (h.(grown := [c.(view := v)] + h.grown, granted := h.granted + multiset{c.base}), r)
  }

  /** The sizes whose floor wraps while the block asked for does not. */
  predicate Wraps(size: int) {
    WORD - CHUNK_OVERHEAD <= size <= WORD - 8
  }

  /** The retry in a fresh chunk fails exactly for the sizes whose floor wraps while the block asked for does not. */
  lemma FreshChunkServes(h: State, size: int, g: Grant)
    requires 0 <= size < WORD && GrantOk(h, size, g)
    ensures ValidView(NewChunk(g).view)
    ensures Allocate(NewChunk(g).view, UnitsFor(size)).1.Some? <==> !Wraps(size)
    // Served with room for what was asked exactly when the sum did not wrap.
    ensures Allocate(NewChunk(g).view, UnitsFor(size)).1.Some? && 8 * (UnitsFor(size) - 1) >= size <==>
      size + CHUNK_OVERHEAD < WORD
  {
    hide Allocate, ValidView, UnitsFor, Wraps, ChunkBytes;
    var v := NewChunk(g).view;
    UnitsPositive(size);
    FreshValid(v.first, v.sentinel - v.first);
    AllocateRefusesIff(v, UnitsFor(size));
    assert v.tiles == [v.tiles[0]] && v.tiles[0] in v.tiles;
    FreshFits(h.growth, size, g.bytes);
    PayloadCoversRequest(size);
    assert size + CHUNK_OVERHEAD < WORD <==> !Wraps(size) && size <= WORD - 8 by { WrapRange(size); }
  }

  lemma WrapRange(size: int)
    ensures Wraps(size) <==> WORD - CHUNK_OVERHEAD <= size <= WORD - 8
  {
  }

  lemma UnitsPositive(size: int)
    requires 0 <= size < WORD
    ensures UnitsFor(size) > 0
  {
  }

  /** A grant for the chunk holds the block beside node, header and sentinel, unless the sum wrapped. */
  lemma FreshFits(growth: int, size: int, bytes: int)
    requires 0 <= size < WORD && bytes % 0x100 == 0 && ChunkBytes(growth, size) <= bytes < 0x8000_0000 && bytes > 0
    ensures (bytes - 32) / 8 >= UnitsFor(size) <==> !Wraps(size)
  {
    var q := bytes / 0x100;
    GrantUnits(bytes, q);
    UnitsAre(size);
    ChunkAtLeast(growth, size);
    hide UnitsFor, ChunkBytes;
    if size < WORD - CHUNK_OVERHEAD { RoomFor(size, q); } else if Wraps(size) { NoRoomFor(size, q); }
  }

  lemma GrantUnits(bytes: int, q: int)
    requires bytes == 0x100 * q
    ensures (bytes - 32) / 8 == 32 * q - 4
  {
    assert bytes - 32 == 8 * (32 * q - 4);
  }

  lemma RoomFor(size: int, q: int)
    requires size >= 0 && size + CHUNK_OVERHEAD <= 0x100 * q
    ensures 32 * q - 4 >= if size < 8 then 2 else (size + 15) / 8
  {
    var u := (size + 15) / 8;
    assert 8 * u <= size + 15;
  }

  lemma NoRoomFor(size: int, q: int)
    requires Wraps(size) && 0x100 * q < 0x8000_0000
    ensures 32 * q - 4 < (size + 15) / 8
  {
    var u := (size + 15) / 8;
    assert size + 15 < 8 * u + 8;
  }

  lemma UnitsAre(size: int)
    requires 0 <= size < WORD
    ensures UnitsFor(size) == if size > WORD - 8 then 1 else if size < 8 then 2 else (size + 15) / 8
  {
    if size > WORD - 8 { assert (size + 7) % WORD == size + 7 - WORD; }
  }

  lemma ChunkAtLeast(growth: int, size: int)
    requires 0 <= size < WORD
    ensures ChunkBytes(growth, size) >= if size < WORD - CHUNK_OVERHEAD then size + CHUNK_OVERHEAD
      else size + CHUNK_OVERHEAD - WORD
  {
  }

  /** Replacing one arena by another over the same memory keeps the heap well formed. */
  lemma ChunkReplaced(h: State, i: int, v: View)
    requires ValidState(h) && 0 <= i < |h.grown| && ValidView(v)
    requires v.first == h.grown[i].view.first && v.sentinel == h.grown[i].view.sentinel
    ensures var h' := h.(grown := h.grown[i := h.grown[i].(view := v)]);
      ValidState(h') && (Balanced(h) ==> Balanced(h')) && (Busy(h) && LiveUnits(v.tiles) > 0 ==> Busy(h'))
  {
    hide ValidView, LiveUnits, Bases;
    var cs := h.grown[i := h.grown[i].(view := v)];
    forall j, k | 0 <= j < k < |cs|
      ensures Apart(cs[j], cs[k])
    {
      assert Apart(h.grown[j], h.grown[k]);
    }
    BasesAround(h.grown, i, h.grown[i].(view := v));
  }

  lemma ChunkRemoved(h: State, i: int)
    requires ValidState(h) && 0 <= i < |h.grown|
    ensures var h' := h.(grown := h.grown[..i] + h.grown[i + 1..], returned := h.returned + multiset{h.grown[i].base});
      ValidState(h') && (Balanced(h) ==> Balanced(h')) && (Busy(h) ==> Busy(h'))
  {
    hide ValidView, LiveUnits, ValidChunk, Apart, Bases;
    var cs := h.grown[..i] + h.grown[i + 1..];
    forall k | 0 <= k < |cs|
      ensures cs[k] == h.grown[if k < i then k else k + 1]
    {
    }
    BasesAround(h.grown, i, h.grown[i]);
  }

  lemma ChunkAdded(h: State, c: Chunk)
    requires ValidState(h) && ValidChunk(c)
    requires forall d :: d in h.grown ==> c.view.sentinel < d.base || d.view.sentinel < c.base
    requires OffHome(h, c)
    ensures var h' := h.(grown := [c] + h.grown, granted := h.granted + multiset{c.base});
      ValidState(h') && (Balanced(h) ==> Balanced(h')) && (Busy(h) && LiveUnits(c.view.tiles) > 0 ==> Busy(h'))
  {
    hide ValidView, LiveUnits;
    var cs := [c] + h.grown;
    forall j, k | 0 <= j < k < |cs|
      ensures Apart(cs[j], cs[k])
    {
      if j == 0 { assert h.grown[k - 1] in h.grown; } else { assert Apart(h.grown[j - 1], h.grown[k - 1]); }
    }
    assert cs[1..] == h.grown;
  }

  /** Allocate leaves the arena where it is, and answers a block only with something then live. */
  lemma AllocateFacts(v: View, units: int)
    requires ValidView(v) && units > 0
    ensures var w := Allocate(v, units).0;
      ValidView(w) && w.first == v.first && w.sentinel == v.sentinel
      && (Allocate(v, units).1.Some? ==> LiveUnits(w.tiles) > 0)
  {
    AllocateValid(v, units);
    NothingLive(v.tiles, v.first);
  }

  lemma AllocHeapValid(h: State, size: int, grant: Option<Grant>)
    requires ValidState(h) && 0 <= size < WORD
    requires grant.Some? ==> GrantOk(h, size, grant.value)
    ensures ValidState(AllocHeap(h, size, grant).0)
    ensures Balanced(h) ==> Balanced(AllocHeap(h, size, grant).0)
    ensures Busy(h) && !Wraps(size) ==> Busy(AllocHeap(h, size, grant).0)
  {
    hide ValidView, LiveUnits, Allocate, Balanced;
    var units := UnitsFor(size);
    var i := Serving(h.grown, units);
    ServingFirst(h.grown, units);
    if i < |h.grown| {
      AllocateFacts(h.grown[i].view, units);
      ChunkReplaced(h, i, Allocate(h.grown[i].view, units).0);
    } else if h.home.Some? && Allocate(h.home.value, units).1.Some? {
      AllocateFacts(h.home.value, units);
      HomeReplaced(h, Allocate(h.home.value, units).0);
    } else if h.growth != 0 && grant.Some? {
      var c := NewChunk(grant.value);
      FreshChunkServes(h, size, grant.value);
      AllocateFacts(c.view, units);
      ChunkAdded(h, c.(view := Allocate(c.view, units).0));
    }
  }

  lemma HomeReplaced(h: State, v: View)
    requires ValidState(h) && h.home.Some? && ValidView(v)
    requires v.first == h.home.value.first && v.sentinel == h.home.value.sentinel
    ensures var h' := h.(home := Some(v));
      ValidState(h') && (Balanced(h) ==> Balanced(h')) && (Busy(h) ==> Busy(h'))
  {
    hide ValidView, LiveUnits;
  }

  /** AllocHeapMemory answers null exactly when no arena can serve and no chunk can be grown that would. */
  lemma AllocHeapRefusesIff(h: State, size: int, grant: Option<Grant>)
    requires ValidState(h) && 0 <= size < WORD
    requires grant.Some? ==> GrantOk(h, size, grant.value)
    ensures var units := UnitsFor(size);
      AllocHeap(h, size, grant).1.None? <==>
        && (forall c, t :: c in h.grown && t in c.view.tiles && !t.live ==> t.size < units)
        && (h.home.Some? ==> forall t :: t in h.home.value.tiles && !t.live ==> t.size < units)
        && (h.growth == 0 || grant.None? || Wraps(size))
  {
    hide ValidView, Allocate;
    var units := UnitsFor(size);
    var i := Serving(h.grown, units);
    ServingFirst(h.grown, units);
    forall k | 0 <= k < |h.grown|
      ensures Allocate(h.grown[k].view, units).1.None? <==> forall t :: t in h.grown[k].view.tiles && !t.live ==>
        t.size < units
    {
      AllocateRefusesIff(h.grown[k].view, units);
    }
    if i < |h.grown| { assert h.grown[i] in h.grown; }
    if h.home.Some? { AllocateRefusesIff(h.home.value, units); }
    if grant.Some? { FreshChunkServes(h, size, grant.value); }
  }

  /** An arena has a free block for `units`. */
  ghost predicate HasRoom(v: View, units: int) {
    exists t :: t in v.tiles && !t.live && t.size >= units
  }

  /** The newest grown chunk with room. */
  ghost predicate NewestRoom(h: State, i: int, units: int)
    requires 0 <= i < |h.grown|
  {
    HasRoom(h.grown[i].view, units) && forall k :: 0 <= k < i ==> !HasRoom(h.grown[k].view, units)
  }

  /** Nothing of the heap but one grown chunk's blocks, which gain `units`, is different. */
  ghost predicate OnlyChunk(h: State, h': State, i: int, units: int)
    requires 0 <= i < |h.grown|
  {
    && |h'.grown| == |h.grown| && h'.grown == h.grown[i := h'.grown[i]]
    && h' == h.(grown := h'.grown) && h'.grown[i].base == h.grown[i].base
    && LiveUnits(h'.grown[i].view.tiles) == LiveUnits(h.grown[i].view.tiles) + units
  }

  /**
   Which arena serves: the newest chunk with room, the home arena only when no chunk has room, and a chunk grown
   from all SYSMEM granted only when none has, in front of the others; a heap that cannot grow stays as it was.
   */
  lemma AllocHeapOrder(h: State, size: int, grant: Option<Grant>)
    requires ValidState(h) && 0 <= size < WORD
    requires grant.Some? ==> GrantOk(h, size, grant.value)
    ensures var h', units := AllocHeap(h, size, grant).0, UnitsFor(size);
      && (forall i :: 0 <= i < |h.grown| && NewestRoom(h, i, units) ==> OnlyChunk(h, h', i, units))
      && ((forall k :: 0 <= k < |h.grown| ==> !HasRoom(h.grown[k].view, units)) ==>
           if h.home.Some? && HasRoom(h.home.value, units) then
             h'.home.Some? && h' == h.(home := h'.home)
             && LiveUnits(h'.home.value.tiles) == LiveUnits(h.home.value.tiles) + units
           else if h.growth == 0 || grant.None? then h' == h
           else
             var n, g := (grant.value.bytes - 0x18) / 8 - 1, grant.value;
             && |h'.grown| == |h.grown| + 1 && h'.grown[1..] == h.grown && h'.home == h.home
             && h'.granted == h.granted + multiset{g.base} && h'.returned == h.returned
             && h'.grown[0].base == g.base && h'.grown[0].view.first == g.base + 3
             && h'.grown[0].view.sentinel == g.base + 3 + n
             && LiveUnits(h'.grown[0].view.tiles) == if Wraps(size) then 0 else units)
  {
    hide ValidView, LiveUnits, Allocate, UnitsFor, HasRoom, Wraps;
    var units := UnitsFor(size);
    var s := Serving(h.grown, units);
    UnitsPositive(size);
    ServingFirst(h.grown, units);
    forall k | 0 <= k < |h.grown|
      ensures HasRoom(h.grown[k].view, units) <==> Allocate(h.grown[k].view, units).1.Some?
    {
      RoomServes(h.grown[k].view, units);
    }
    if s < |h.grown| {
      AllocateValid(h.grown[s].view, units);
    } else if h.home.Some? {
      RoomServes(h.home.value, units);
      AllocateValid(h.home.value, units);
    }
    if grant.Some? {
      var v := NewChunk(grant.value).view;
      FreshChunkServes(h, size, grant.value);
      FreshValid(v.first, v.sentinel - v.first);
      AllocateValid(v, units);
      assert ([NewChunk(grant.value).(view := Allocate(v, units).0)] + h.grown)[1..] == h.grown;
    }
  }

  lemma RoomServes(v: View, units: int)
    requires ValidView(v) && units > 0
    ensures HasRoom(v, units) <==> Allocate(v, units).1.Some?
  {
    hide ValidView, Allocate;
    AllocateRefusesIff(v, units);
  }

  // ----- release ---------------------------------------------------------------------------------

  /** The grown chunk whose live block `ptr` names; `|cs|` when none does. */
  function Owner(cs: seq<Chunk>, ptr: int): (i: int)
    ensures 0 <= i <= |cs|
    ensures forall k :: 0 <= k < i ==> !LiveAt(cs[k].view.tiles, ptr)
    ensures i < |cs| ==> LiveAt(cs[i].view.tiles, ptr)
  {
    if cs == [] || LiveAt(cs[0].view.tiles, ptr) then 0 else 1 + Owner(cs[1..], ptr)
  }

  /** FreeHeapMemory: release the block, and give a grown chunk back once its last block is free. */
  function FreeHeap(h: State, ptr: int): (State, int) {
    var i := Owner(h.grown, ptr);
    if i < |h.grown| then
      var v := Release(h.grown[i].view, ptr);
      if LiveUnits(v.tiles) == 0 then
        (h.(grown := h.grown[..i] + h.grown[i + 1..], returned := h.returned + multiset{h.grown[i].base}), 0)
      else
        (h.(grown := h.grown[i := h.grown[i].(view := v)]), 0)
    else if h.home.Some? && LiveAt(h.home.value.tiles, ptr) then
      (h.(home := Some(Release(h.home.value, ptr))), 0)
    else
      (h, NOT_OWNED)
  }

  lemma FreeHeapValid(h: State, ptr: int)
    requires ValidState(h)
    ensures ValidState(FreeHeap(h, ptr).0)
    ensures Balanced(h) ==> Balanced(FreeHeap(h, ptr).0)
    ensures Busy(h) ==> Busy(FreeHeap(h, ptr).0)
  {
    hide ValidView, LiveUnits, Released, Balanced;
    var i := Owner(h.grown, ptr);
    if i < |h.grown| {
      var v := Release(h.grown[i].view, ptr);
      ReleaseFacts(h.grown[i].view, ptr);
      if LiveUnits(v.tiles) == 0 { ChunkRemoved(h, i); } else { ChunkReplaced(h, i, v); }
    } else if h.home.Some? && LiveAt(h.home.value.tiles, ptr) {
      ReleaseFacts(h.home.value, ptr);
      HomeReplaced(h, Release(h.home.value, ptr));
    }
  }

  lemma ReleaseFacts(v: View, ptr: int)
    requires ValidView(v) && LiveAt(v.tiles, ptr)
    ensures var w := Release(v, ptr);
      ValidView(w) && w.first == v.first && w.sentinel == v.sentinel && LiveUnits(w.tiles) >= 0
  {
    ReleaseValid(v, ptr);
    NothingLive(Release(v, ptr).tiles, v.first);
  }

  /** DeleteHeap gives back every grown chunk and then the heap object. */
  ghost function Deleted(h: State): State {
    h.(returned := h.returned + Bases(h.grown) + multiset{h.base}, grown := [])
  }

  /** Nothing is live anywhere in the heap. */
  ghost predicate Drained(h: State) {
    && (forall i, t :: 0 <= i < |h.grown| && t in h.grown[i].view.tiles ==> !t.live)
    && (h.home.Some? ==> forall t :: t in h.home.value.tiles ==> !t.live)
  }

  // ----- the blocks a client holds --------------------------------------------------------------------

  /** The arenas, newest first, the home arena last. */
  ghost function Arenas(h: State): (vs: seq<View>)
    ensures |vs| == |h.grown| + if h.home.Some? then 1 else 0
  {
    seq(|h.grown|, i requires 0 <= i < |h.grown| => h.grown[i].view) + if h.home.Some? then [h.home.value] else []
  }

  /** A live block of `size` units whose pointer is `q`, in some arena. */
  ghost predicate Held(vs: seq<View>, q: int, size: int) {
    exists k :: 0 <= k < |vs| && Block(vs[k], q, size)
  }

  /** No arena of the heap has a block live at `ptr`. */
  ghost predicate NoneLive(h: State, ptr: int) {
    && (forall k :: 0 <= k < |h.grown| ==> !LiveAt(h.grown[k].view.tiles, ptr))
    && (h.home.Some? ==> !LiveAt(h.home.value.tiles, ptr))
  }

  /** An allocation: `r` names a new block of `units`, and the blocks held before stay, none of them touching it. */
  ghost predicate HeapIssues(h: State, h': State, r: Option<int>, units: int) {
    && (forall q, size :: Held(Arenas(h'), q, size) <==> Held(Arenas(h), q, size) || (r == Some(q) && size == units))
    && (r.Some? ==> forall q, size :: Held(Arenas(h), q, size) ==> Disjoint(q, size, r.value, units))
    && (forall q :: NoneLive(h', q) <==> NoneLive(h, q) && r != Some(q))
    && (r.Some? ==> NoneLive(h, r.value))
  }

  /** A release: the block is gone, and the others stay. */
  ghost predicate HeapFrees(h: State, h': State, ptr: int) {
    && (forall q, size :: Held(Arenas(h'), q, size) <==> Held(Arenas(h), q, size) && q != ptr)
    && (forall q :: NoneLive(h', q) <==> NoneLive(h, q) || q == ptr)
  }

  /** Arenas that do not overlap. */
  ghost predicate Separate(vs: seq<View>) {
    && (forall i :: 0 <= i < |vs| ==> ValidView(vs[i]))
    && (forall i, j :: 0 <= i < j < |vs| ==> vs[i].sentinel < vs[j].first || vs[j].sentinel < vs[i].first)
  }

  lemma ArenasApart(h: State)
    requires ValidState(h)
    ensures Separate(Arenas(h))
  {
    hide ValidView;
    var vs := Arenas(h);
    forall i | 0 <= i < |vs|
      ensures ValidView(vs[i])
    {
      if i < |h.grown| { assert ValidChunk(h.grown[i]); }
    }
    forall i, j | 0 <= i < j < |vs|
      ensures vs[i].sentinel < vs[j].first || vs[j].sentinel < vs[i].first
    {
      assert ValidChunk(h.grown[i]);
      if j < |h.grown| {
        assert ValidChunk(h.grown[j]) && Apart(h.grown[i], h.grown[j]);
      } else {
        assert OffHome(h, h.grown[i]);
      }
    }
  }

  /** A pointer is live exactly when some arena holds its block. */
  lemma HeldIsLive(h: State, q: int)
    requires ValidState(h)
    ensures NoneLive(h, q) <==> forall size :: !Held(Arenas(h), q, size)
  {
    hide ValidState, LiveAt, Block, ValidView, SizeAt;
    ArenasApart(h);
    var vs := Arenas(h);
    forall k | 0 <= k < |vs|
      ensures LiveAt(vs[k].tiles, q) ==> Block(vs[k], q, SizeAt(vs[k].tiles, q - 1))
      ensures forall size :: Block(vs[k], q, size) ==> LiveAt(vs[k].tiles, q)
    {
      BlockAt(vs[k], q);
    }
    assert forall k :: 0 <= k < |h.grown| ==> vs[k] == h.grown[k].view;
    assert h.home.Some? ==> vs[|h.grown|] == h.home.value;
    if !NoneLive(h, q) {
      var k := Owner(h.grown, q);
      assert Block(vs[k], q, SizeAt(vs[k].tiles, q - 1));
      assert Held(vs, q, SizeAt(vs[k].tiles, q - 1));
    }
  }

  /** An allocation in one arena, seen from all of them. */
  lemma IssuedAmong(vs: seq<View>, i: int, units: int, q: int, size: int)
    requires Separate(vs) && 0 <= i < |vs| && units > 0
    ensures var (w, r) := Allocate(vs[i], units);
      && (Held(vs[i := w], q, size) <==> Held(vs, q, size) || (r == Some(q) && size == units))
      && (r.Some? && Held(vs, q, size) ==> Disjoint(q, size, r.value, units))
  {
    hide Allocate, ValidView, Block;
    var (w, r) := Allocate(vs[i], units);
    AllocateValid(vs[i], units);
    AllocateBlocks(vs[i], units, q, size);
    if Held(vs, q, size) {
      var k :| 0 <= k < |vs| && Block(vs[k], q, size);
      assert Block(vs[i := w][k], q, size);
      if r.Some? {
        AllocateBlocks(vs[i], units, r.value, units);
        BlockInside(w, r.value, units);
        BlockInside(vs[k], q, size);
        if k == i { BlocksApart(w, q, size, r.value, units); }
      }
    }
    if Held(vs[i := w], q, size) {
      var k :| 0 <= k < |vs| && Block(vs[i := w][k], q, size);
      if k != i { assert Block(vs[k], q, size); }
    }
    if r == Some(q) && size == units { assert Block(vs[i := w][i], q, size); }
  }

  /** A release in one arena, seen from all of them. */
  lemma FreedAmong(vs: seq<View>, i: int, ptr: int, q: int, size: int)
    requires Separate(vs) && 0 <= i < |vs| && LiveAt(vs[i].tiles, ptr)
    ensures Held(vs[i := Release(vs[i], ptr)], q, size) <==> Held(vs, q, size) && q != ptr
  {
    hide Release, ValidView, Block, LiveAt, SizeAt;
    var w := Release(vs[i], ptr);
    BlockAt(vs[i], ptr);
    BlockInside(vs[i], ptr, SizeAt(vs[i].tiles, ptr - 1));
    ReleaseBlocks(vs[i], ptr, q, size);
    if Held(vs, q, size) && q != ptr {
      var k :| 0 <= k < |vs| && Block(vs[k], q, size);
      assert Block(vs[i := w][k], q, size);
    }
    if Held(vs[i := w], q, size) {
      var k :| 0 <= k < |vs| && Block(vs[i := w][k], q, size);
      if k != i {
        assert Block(vs[k], q, size);
        BlockInside(vs[k], q, size);
      }
    }
  }

  /** What AllocHeapMemory hands out is a live block of the units asked for, apart from every block held. */
  lemma AllocHeapIssues(h: State, size: int, grant: Option<Grant>)
    requires ValidState(h) && 0 <= size < WORD
    requires grant.Some? ==> GrantOk(h, size, grant.value)
    ensures var (h', r) := AllocHeap(h, size, grant); HeapIssues(h, h', r, UnitsFor(size))
  {
    hide ValidState, Allocate, Arenas, Held, NoneLive, AllocHeap, UnitsFor, Disjoint;
    var (h', r) := AllocHeap(h, size, grant);
    AllocHeapValid(h, size, grant);
    forall q, n
      ensures Held(Arenas(h'), q, n) <==> Held(Arenas(h), q, n) || (r == Some(q) && n == UnitsFor(size))
      ensures r.Some? && Held(Arenas(h), q, n) ==> Disjoint(q, n, r.value, UnitsFor(size))
    {
      AllocHeapHolds(h, size, grant, q, n);
    }
    forall q
      ensures NoneLive(h', q) <==> NoneLive(h, q) && r != Some(q)
    {
      HeldIsLive(h, q);
      HeldIsLive(h', q);
      assert Held(Arenas(h'), q, UnitsFor(size)) <== r == Some(q);
    }
    if r.Some? {
      HeldIsLive(h, r.value);
      forall n
        ensures !Held(Arenas(h), r.value, n)
      {
        UnitsPositive(size);
        AllocHeapHolds(h, size, grant, r.value, n);
        if Held(Arenas(h), r.value, n) { NotBesideItself(h, r.value, n, UnitsFor(size)); }
      }
    }
  }

  lemma NotBesideItself(h: State, q: int, n: int, units: int)
    requires ValidState(h) && Held(Arenas(h), q, n) && units > 0
    ensures !Disjoint(q, n, q, units)
  {
    ArenasApart(h);
    hide ValidState, ValidView, Block, Arenas;
    var vs := Arenas(h);
    var k :| 0 <= k < |vs| && Block(vs[k], q, n);
    BlockInside(vs[k], q, n);
  }

  lemma AllocHeapHolds(h: State, size: int, grant: Option<Grant>, q: int, n: int)
    requires ValidState(h) && 0 <= size < WORD
    requires grant.Some? ==> GrantOk(h, size, grant.value)
    ensures var (h', r) := AllocHeap(h, size, grant);
      && (Held(Arenas(h'), q, n) <==> Held(Arenas(h), q, n) || (r == Some(q) && n == UnitsFor(size)))
      && (r.Some? && Held(Arenas(h), q, n) ==> Disjoint(q, n, r.value, UnitsFor(size)))
  {
    hide ValidState, Allocate, Held, Separate, UnitsFor, Disjoint, GrantOk, NewChunk;
    var units, vs := UnitsFor(size), Arenas(h);
    UnitsPositive(size);
    ArenasApart(h);
    var i := Serving(h.grown, units);
    ServingFirst(h.grown, units);
    if i < |h.grown| {
      var w := Allocate(h.grown[i].view, units).0;
      IssuedAmong(vs, i, units, q, n);
      assert Arenas(AllocHeap(h, size, grant).0) == vs[i := w];
    } else if h.home.Some? && Allocate(h.home.value, units).1.Some? {
      var w := Allocate(h.home.value, units).0;
      IssuedAmong(vs, |h.grown|, units, q, n);
      assert Arenas(AllocHeap(h, size, grant).0) == vs[|h.grown| := w];
    } else if h.growth != 0 && grant.Some? {
      var c := NewChunk(grant.value);
      var w := Allocate(c.view, units).0;
      FreshArena(h, size, grant.value, q, n);
      IssuedAmong([c.view] + vs, 0, units, q, n);
      assert ([c.view] + vs)[0 := w] == [w] + vs;
      assert Arenas(AllocHeap(h, size, grant).0) == [w] + vs;
    }
  }

  /** A fresh chunk's arena lies apart from the others and holds nothing. */
  lemma FreshArena(h: State, size: int, g: Grant, q: int, n: int)
    requires ValidState(h) && GrantOk(h, size, g) && 0 <= size < WORD
    ensures var vs := Arenas(h); var ws := [NewChunk(g).view] + vs;
      Separate(ws) && (Held(ws, q, n) <==> Held(vs, q, n))
  {
    FreshState(h, size, g);
    hide ValidState, GrantOk, Separate, ValidView, Held;
    var c, vs := NewChunk(g), Arenas(h);
    var h' := h.(grown := [c] + h.grown, granted := h.granted + multiset{c.base});
    ArenasApart(h');
    assert Arenas(h') == [c.view] + vs;
    HeldBeside(c.view, vs, q, n);
  }

  lemma FreshState(h: State, size: int, g: Grant)
    requires ValidState(h) && GrantOk(h, size, g) && 0 <= size < WORD
    ensures var c := NewChunk(g); ValidState(h.(grown := [c] + h.grown, granted := h.granted + multiset{c.base}))
  {
    hide ValidView;
    FreshChunkServes(h, size, g);
    assert ValidChunk(NewChunk(g));
    ChunkAdded(h, NewChunk(g));
  }

  lemma HeldBeside(v: View, vs: seq<View>, q: int, n: int)
    requires !Block(v, q, n)
    ensures Held([v] + vs, q, n) <==> Held(vs, q, n)
  {
    hide Block;
    var ws := [v] + vs;
    if Held(ws, q, n) {
      var k :| 0 <= k < |ws| && Block(ws[k], q, n);
      assert ws[k] == vs[k - 1];
    }
    if Held(vs, q, n) {
      var k :| 0 <= k < |vs| && Block(vs[k], q, n);
      assert ws[k + 1] == vs[k];
    }
  }

  /** A release takes its own block from the client, and no other, whether or not a chunk goes back with it. */
  lemma FreeHeapFrees(h: State, ptr: int)
    requires ValidState(h) && !NoneLive(h, ptr)
    ensures HeapFrees(h, FreeHeap(h, ptr).0, ptr)
  {
    hide ValidState, Arenas, Held, NoneLive, FreeHeap;
    var h' := FreeHeap(h, ptr).0;
    FreeHeapValid(h, ptr);
    forall q, n
      ensures Held(Arenas(h'), q, n) <==> Held(Arenas(h), q, n) && q != ptr
    {
      FreeHeapHolds(h, ptr, q, n);
    }
    forall q
      ensures NoneLive(h', q) <==> NoneLive(h, q) || q == ptr
    {
      HeldIsLive(h, q);
      HeldIsLive(h', q);
    }
  }

  lemma FreeHeapHolds(h: State, ptr: int, q: int, n: int)
    requires ValidState(h) && !NoneLive(h, ptr)
    ensures Held(Arenas(FreeHeap(h, ptr).0), q, n) <==> Held(Arenas(h), q, n) && q != ptr
  {
    hide ValidState, Release, Held, Separate, LiveAt, LiveUnits;
    var vs := Arenas(h);
    ArenasApart(h);
    var i := Owner(h.grown, ptr);
    if i < |h.grown| {
      var w := Release(h.grown[i].view, ptr);
      FreedAmong(vs, i, ptr, q, n);
      if LiveUnits(w.tiles) == 0 {
        assert Arenas(FreeHeap(h, ptr).0) == vs[..i] + vs[i + 1..];
        NothingHeld(h, i, ptr, q, n);
        HeldWithout(vs[i := w], i, q, n);
        assert vs[i := w][..i] + vs[i := w][i + 1..] == vs[..i] + vs[i + 1..];
      } else {
        assert Arenas(FreeHeap(h, ptr).0) == vs[i := w];
      }
    } else {
      FreedAmong(vs, |h.grown|, ptr, q, n);
      assert Arenas(FreeHeap(h, ptr).0) == vs[|h.grown| := Release(h.home.value, ptr)];
    }
  }

  lemma NothingHeld(h: State, i: int, ptr: int, q: int, n: int)
    requires ValidState(h) && 0 <= i < |h.grown| && LiveAt(h.grown[i].view.tiles, ptr)
    requires LiveUnits(Release(h.grown[i].view, ptr).tiles) == 0
    ensures !Block(Release(h.grown[i].view, ptr), q, n)
  {
    assert ValidChunk(h.grown[i]);
    ReleaseFacts(h.grown[i].view, ptr);
    NothingLive(Release(h.grown[i].view, ptr).tiles, h.grown[i].view.first);
  }

  /** An arena that holds nothing may go. */
  lemma HeldWithout(vs: seq<View>, i: int, q: int, n: int)
    requires 0 <= i < |vs| && !Block(vs[i], q, n)
    ensures Held(vs[..i] + vs[i + 1..], q, n) <==> Held(vs, q, n)
  {
    hide Block;
    var ws := vs[..i] + vs[i + 1..];
    if Held(vs, q, n) {
      var k :| 0 <= k < |vs| && Block(vs[k], q, n);
      assert vs[k] == ws[if k < i then k else k - 1];
    }
    if Held(ws, q, n) {
      var k :| 0 <= k < |ws| && Block(ws[k], q, n);
      assert ws[k] == vs[if k < i then k else k + 1];
    }
  }

  // ----- whole runs ---------------------------------------------------------------------------------

  datatype Call = Alloc(size: int, grant: Option<Grant>) | Free(ptr: int)

  ghost predicate Legal(h: State, c: Call) {
    c.Alloc? ==> 0 <= c.size < WORD && (c.grant.Some? ==> GrantOk(h, c.size, c.grant.value))
  }

  function Next(h: State, c: Call): State {
    match c
    case Alloc(size, grant) => AllocHeap(h, size, grant).0
    case Free(ptr) => FreeHeap(h, ptr).0
  }

  lemma NextValid(h: State, c: Call)
    requires ValidState(h) && Legal(h, c)
    ensures ValidState(Next(h, c))
    ensures Balanced(h) ==> Balanced(Next(h, c))
    ensures Busy(h) && (c.Alloc? ==> !Wraps(c.size)) ==> Busy(Next(h, c))
    ensures Next(h, c).base == h.base
  {
    match c
    case Alloc(size, grant) => AllocHeapValid(h, size, grant);
    case Free(ptr) => FreeHeapValid(h, ptr);
  }

  /** `w` is reached from `h` by the calls, each legal where it is made. */
  ghost predicate Reaches(h: State, calls: seq<Call>, w: State)
    decreases |calls|
  {
    if calls == [] then w == h
    else ValidState(h) && Legal(h, calls[0]) && Reaches(Next(h, calls[0]), calls[1..], w)
  }

  /** The heap CreateHeap makes of a granted block. */
  ghost predicate Created(h: State) {
    && h.grown == [] && ValidState(h)
    && h.granted == multiset{h.base} && h.returned == multiset{}
  }

  lemma {:induction false} RunKeeps(h: State, calls: seq<Call>, w: State)
    requires ValidState(h) && Reaches(h, calls, w)
    ensures ValidState(w) && w.base == h.base
    ensures Balanced(h) ==> Balanced(w)
    ensures Busy(h) && (forall c :: c in calls && c.Alloc? ==> !Wraps(c.size)) ==> Busy(w)
    decreases |calls|
  {
    hide ValidState, Busy, Balanced, Next, Legal;
    if calls != [] {
      assert calls == [calls[0]] + calls[1..];
      NextValid(h, calls[0]);
      RunKeeps(Next(h, calls[0]), calls[1..], w);
    }
  }

  /**
   Over every run with no wrapping size: each grown chunk holds a live block, so once everything
   has been freed SYSMEM has every grown chunk back, once for each time it granted it.
   */
  lemma DrainedReturnsAll(h: State, calls: seq<Call>, w: State)
    requires Created(h) && Reaches(h, calls, w)
    requires forall c :: c in calls && c.Alloc? ==> !Wraps(c.size)
    ensures Busy(w)
    ensures Drained(w) ==> w.grown == [] && w.granted == w.returned + multiset{h.base}
  {
    RunKeeps(h, calls, w);
    if Drained(w) && w.grown != [] {
      NothingLive(w.grown[0].view.tiles, w.grown[0].view.first);
    }
  }

  /** Whatever was live, DeleteHeap leaves SYSMEM owed nothing, over every run at all. */
  lemma DeleteReturnsAll(h: State, calls: seq<Call>, w: State)
    requires Created(h) && Reaches(h, calls, w)
    ensures Deleted(w).granted == Deleted(w).returned
  {
    RunKeeps(h, calls, w);
  }

  /** Some arena of the heap has a free block of `units` or more. */
  ghost predicate FitsSomewhere(h: State, units: int) {
    || (exists c, t :: c in h.grown && t in c.view.tiles && !t.live && units <= t.size)
    || (h.home.Some? && exists t :: t in h.home.value.tiles && !t.live && units <= t.size)
  }

  /**
   An allocation leaves every grown chunk with a live block if and only if it does not grow the heap by a chunk
   for a size that wraps; that chunk is stranded with nothing live in it.
   */
  lemma StrandsIff(h: State, size: int, grant: Option<Grant>)
    requires ValidState(h) && Busy(h) && 0 <= size < WORD
    requires grant.Some? ==> GrantOk(h, size, grant.value)
    ensures !Busy(AllocHeap(h, size, grant).0) <==>
      Wraps(size) && h.growth != 0 && grant.Some? && !FitsSomewhere(h, UnitsFor(size))
  {
    hide ValidView, LiveUnits, Allocate, UnitsFor, Wraps, GrantOk;
    var units := UnitsFor(size);
    AllocHeapRefusesIff(h, size, None);
    var i := Serving(h.grown, units);
    ServingFirst(h.grown, units);
    AllocHeapValid(h, size, grant);
    UnitsPositive(size);
    if i < |h.grown| {
      AllocateFacts(h.grown[i].view, units);
      ChunkReplaced(h, i, Allocate(h.grown[i].view, units).0);
    } else if h.home.Some? && Allocate(h.home.value, units).1.Some? {
      HomeKeepsBusy(h, Allocate(h.home.value, units).0);
    } else if h.growth != 0 && grant.Some? {
      var c := NewChunk(grant.value);
      FreshChunkServes(h, size, grant.value);
      if Wraps(size) {
        NothingLiveInFresh(grant.value);
        assert AllocHeap(h, size, grant).0.grown[0] == c;
      }
    }
  }

  lemma HomeKeepsBusy(h: State, v: View)
    requires Busy(h)
    ensures Busy(h.(home := Some(v)))
  {
  }

  lemma NothingLiveInFresh(g: Grant)
    ensures LiveUnits(NewChunk(g).view.tiles) == 0
  {
  }
}
