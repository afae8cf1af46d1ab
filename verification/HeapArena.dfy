/**
 HEAPLIB's arena primitives over raw memory (src/iop/heaplib.cpp): headers, links,
 rover and usage count are rewritten in place, and every operation is proved to do
 to the tiles of `HeapTiles` what its name says.
 */
module HeapArena {
  import opened Common
  import opened HeapTiles
  import Lists

  /** One eight-byte unit of memory, seen as the two words of a block header. */
  datatype Unit = Unit(next: int, size: int)

  // ----- the free list as a ring in memory ---------------------------------------

  /** What follows position `i` on a circular list. */
  ghost function Next(f: seq<int>, i: int): int
    requires 0 <= i < |f|
  {
    if i + 1 < |f| then f[i + 1] else f[0]
  }

  ghost predicate Ring(m: seq<Unit>, f: seq<int>) {
    && (forall i :: 0 <= i < |f| ==> 0 <= f[i] < |m|)
    && (forall i {:trigger Next(f, i)} :: 0 <= i < |f| ==> m[f[i]].next == Next(f, i))
  }

  /** The element before position `j`, going round. */
  ghost function Before(f: seq<int>, j: int): int
    requires 0 <= j < |f|
  {
    f[Cyclic(j, |f|)]
  }

  /** `m'` has the links of `m` at every element of `f` but `a` and `b`. */
  ghost predicate SameLinks(m: seq<Unit>, m': seq<Unit>, f: seq<int>, a: int, b: int)
    requires forall i :: 0 <= i < |f| ==> 0 <= f[i] < |m|
  {
    |m'| == |m| && forall i :: 0 <= i < |f| && f[i] != a && f[i] != b ==> m'[f[i]].next == m[f[i]].next
  }

  lemma RingInsert(m: seq<Unit>, m': seq<Unit>, f: seq<int>, j: int, x: int)
    requires Ring(m, f) && Lists.Distinct(f) && 0 <= j < |f| && x !in f && 0 <= x < |m|
    requires SameLinks(m, m', f, Before(f, j), Before(f, j))
    requires m'[x].next == f[j] && m'[Before(f, j)].next == x
    ensures Ring(m', f[..j] + [x] + f[j..])
  {
    var g := f[..j] + [x] + f[j..];
    forall i | 0 <= i < |g|
      ensures m'[g[i]].next == Next(g, i)
    {
      if i < j {
        assert m[f[i]].next == Next(f, i);
      } else if i > j {
        assert g[i] == f[i - 1] && m[f[i - 1]].next == Next(f, i - 1);
      }
    }
  }

  lemma RingRemove(m: seq<Unit>, m': seq<Unit>, f: seq<int>, j: int)
    requires Ring(m, f) && Lists.Distinct(f) && 0 <= j < |f| && |f| > 1
    requires SameLinks(m, m', f, Before(f, j), f[j])
    requires m'[Before(f, j)].next == m[f[j]].next
    ensures Ring(m', f[..j] + f[j + 1..])
  {
    var g := f[..j] + f[j + 1..];
    forall i | 0 <= i < |g|
      ensures m'[g[i]].next == Next(g, i)
    {
      assert m[f[j]].next == Next(f, j);
      if i < j {
        assert m[f[i]].next == Next(f, i);
      } else {
        assert g[i] == f[i + 1] && m[f[i + 1]].next == Next(f, i + 1);
      }
    }
  }

  lemma RingReplace(m: seq<Unit>, m': seq<Unit>, f: seq<int>, j: int, x: int)
    requires Ring(m, f) && Lists.Distinct(f) && 0 <= j < |f| && |f| > 1 && x !in f && 0 <= x < |m|
    requires SameLinks(m, m', f, Before(f, j), f[j])
    requires m'[Before(f, j)].next == x && m'[x].next == m[f[j]].next
    ensures Ring(m', f[..j] + [x] + f[j + 1..])
  {
    var g := f[..j] + [x] + f[j + 1..];
    forall i | 0 <= i < |g|
      ensures m'[g[i]].next == Next(g, i)
    {
      assert m[f[i]].next == Next(f, i);
    }
  }

  lemma RingFrame(m: seq<Unit>, m': seq<Unit>, f: seq<int>)
    requires Ring(m, f) && |m'| == |m| && forall i :: 0 <= i < |f| ==> m'[f[i]].next == m[f[i]].next
    ensures Ring(m', f)
  {
  }

  lemma RingRotate(m: seq<Unit>, f: seq<int>, r: int)
    requires Ring(m, f) && 0 <= r <= |f|
    ensures Ring(m, f[r..] + f[..r])
  {
    var g := f[r..] + f[..r];
    forall i | 0 <= i < |g|
      ensures m[g[i]].next == Next(g, i)
    {
      var k := if i + r < |f| then i + r else i + r - |f|;
      assert g[i] == f[k] && m[f[k]].next == Next(f, k);
    }
  }

  // ----- memory against view -----------------------------------------------------------

  /** Every tile has its header: its size, and the ownership tag when it is live. */
  ghost predicate Headers(m: seq<Unit>, v: View) {
    forall i :: 0 <= i < |v.tiles| ==>
      var t := v.tiles[i];
      && 0 <= t.addr < |m|
      && m[t.addr].size == t.size
      && (t.live ==> m[t.addr].next == v.first - 2)
  }

  /** `m` holds the arena whose header is at `v.first - 2`, and it looks like `v`. */
  ghost predicate Rep(m: seq<Unit>, v: View) {
    match v
    case View(first, sentinel, tiles, rover) =>
      && ValidView(v)
      && 2 <= first && sentinel < |m|
      && m[first - 2].next == Magic(first - 2)
      && (m[first - 2].size - 0x10) / 8 - 1 == sentinel - first
      && m[first - 1] == Unit(LiveUnits(tiles), rover)
      && Headers(m, v)
      && m[sentinel].size == 0
      && Ring(m, FreeList(v))
  }

  function Magic(at: int): int { 8 * at - 1 }

  predicate Prepared(m: seq<Unit>, at: int)
    requires 0 <= at < |m|
  {
    m[at].next == Magic(at)
  }

  /** The memory an arena lives in, and the arena at unit address `at`. */
  class Arena {
    var mem: seq<Unit>
    const at: int

    /** What the arena holds, once it has been prepared. */
    ghost var view: View
    /** Headers of blocks that were freed and whose space has not been handed out again. */
    ghost var stale: set<int>

    ghost predicate Valid()
      reads this
    {
      && 0 < at < |mem| - 1
      && (Prepared(mem, at) ==> view.first == at + 2 && Rep(mem, view) && StaleOk(mem, view, stale))
    }

    constructor (mem: seq<Unit>, at: int)
      requires 0 < at < |mem| - 1 && !Prepared(mem, at)
      ensures this.mem == mem && this.at == at && Valid()
    {
      this.mem, this.at := mem, at;
      this.view, this.stale := View(0, 0, [], 0), {};
    }

    /** Ordinal 11. A size below 0x29 leaves everything as it was. */
    method HeapPrepare(size: int)
      requires 0 < at < |mem| - 1 && at + 2 + (size - 0x10) / 8 <= |mem|
      modifies this
      ensures old(Valid()) || size >= 0x29 ==> Valid()
      ensures size < 0x29 ==> mem == old(mem) && view == old(view) && stale == old(stale)
      ensures size >= 0x29 ==> Prepared(mem, at) && view == Fresh(at + 2, (size - 0x10) / 8 - 1) && stale == {}
      // One free block, all of the memory given but the header's two units and the sentinel.
      ensures size >= 0x29 ==> view.tiles == [Tile(at + 2, (size - 0x10) / 8 - 1, false)]
      ensures size >= 0x29 ==> JustPrepared(mem, at, size)
      ensures SameOutside(old(mem), mem, at, at + 2 + (size - 0x10) / 8)
    {
      if size < 0x29 { return; }
      mem := PrepareIn(mem, at, size);
      view, stale := Fresh(at + 2, (size - 0x10) / 8 - 1), {};
    }

    /** Ordinal 13: next fit from the rover, splitting from the tail. */
    method HeapAlloc(requested: int) returns (r: Option<int>)
      requires Valid() && 0 <= requested < WORD
      modifies this
      ensures Valid() && (Prepared(mem, at) <==> old(Prepared(mem, at)))
      ensures old(Prepared(mem, at)) ==> (view, r) == Allocate(old(view), UnitsFor(requested))
      ensures !old(Prepared(mem, at)) ==> r == None && view == old(view)
      ensures stale == if r.Some? then Unissued(old(stale), r.value - 1, UnitsFor(requested)) else old(stale)
      ensures r == None ==> mem == old(mem)
      // What is answered is a live block of the units asked for, and every block held stays, apart from it.
      ensures old(Prepared(mem, at)) ==> Issues(old(view), view, r, UnitsFor(requested))
      // Nothing outside the arena and no unit of a live block is written.
      ensures old(Prepared(mem, at)) ==> Confined(old(mem), mem, old(view), 0)
      ensures r.Some? ==> Written(old(mem), mem, old(view), r.value - 1)
    {
      hide Rep, StaleOk, Allocate, Confined, Written, Issues, Unissued;
      var m;
      if Prepared(mem, at) { Issued(mem, view, requested); }
      m, r := AllocIn(mem, at, requested, view, stale);
      if Prepared(mem, at) { ConfinedNow(mem, view, 0); }
      if r.Some? { stale := Unissued(stale, r.value - 1, UnitsFor(requested)); }
      if Prepared(mem, at) { view := Allocate(view, UnitsFor(requested)).0; }
      mem := m;
    }

    /** Ordinal 14.  The pointer is one this arena has handed out, freed since or not, or names no unit of it. */
    method HeapFree(ptr: int) returns (code: int)
      requires Valid() && (Prepared(mem, at) ==> Known(mem, view, stale, ptr))
      modifies this
      ensures Valid() && (Prepared(mem, at) <==> old(Prepared(mem, at)))
      ensures old(Prepared(mem, at)) && LiveAt(old(view).tiles, ptr) ==>
        code == 0 && view == Release(old(view), ptr) && stale == old(stale) + {ptr - 1}
      ensures !(old(Prepared(mem, at)) && LiveAt(old(view).tiles, ptr)) ==>
        mem == old(mem) && view == old(view) && stale == old(stale)
        && code == if !Prepared(mem, at) then -4 else if InExtent(mem, view, ptr) then -1
          else -2
      ensures code == 0 ==> Frees(old(view), view, ptr)
      // Nothing outside the arena and no unit of another live block is written.
      ensures code == 0 ==> Confined(old(mem), mem, old(view), ptr - 1) && Written(old(mem), mem, old(view), ptr - 1)
    {
      hide Rep, StaleOk, Known, Confined, Written, Frees;
      var m;
      if Prepared(mem, at) && LiveAt(view.tiles, ptr) { Freed(mem, view, ptr); }
      m, code := FreeIn(mem, at, ptr, view, stale);
      if code == 0 {
        view := Release(view, ptr);
        stale := stale + {ptr - 1};
      }
      mem := m;
    }

    /** Ordinal 12. */
    method HeapIsEmpty() returns (r: int)
      requires Valid()
      ensures Prepared(mem, at) ==> (r == 1 <==> forall t :: t in view.tiles ==> !t.live) && (r == 0 || r == 1)
      ensures !Prepared(mem, at) ==> r == -4
    {
      if mem[at].next != Magic(at) { return BAD_ARENA; }
      NothingLive(view.tiles, view.first);
      r := if mem[at + 1].next == 0 then 1 else 0;
    }

    /** Ordinal 15: the bytes of the free blocks, headers included. */
    method HeapChunkSize() returns (bytes: int)
      requires Valid() && Prepared(mem, at)
      ensures bytes == 8 * FreeUnits(view.tiles)
    {
      UnitsSplit(view.tiles);
      var units := (mem[at].size - 0x10) / 8;
      bytes := (units - mem[at + 1].next - 1) * 8;
    }

    /** A client writes a unit of a block it holds, past the header. */
    method WritePayload(ptr: int, offset: int, u: Unit)
      requires Valid() && Prepared(mem, at) && LiveAt(view.tiles, ptr)
      requires 0 <= offset && offset + 1 < SizeAt(view.tiles, ptr - 1)
      requires ptr + offset < |mem|
      modifies this`mem
      ensures Valid() && Prepared(mem, at) && mem == old(mem)[ptr + offset := u]
    {
      PayloadIsNoHeader(mem, view, ptr, offset, stale, u);
      mem := mem[ptr + offset := u];
    }
  }

  lemma Issued(m: seq<Unit>, v: View, requested: int)
    requires Rep(m, v) && 0 <= requested < WORD
    ensures var (w, r) := Allocate(v, UnitsFor(requested)); Issues(v, w, r, UnitsFor(requested))
  {
    hide ValidView, Issues, Allocate;
    PayloadCoversRequest(requested);
    AllocateIssues(v, UnitsFor(requested));
  }

  lemma Freed(m: seq<Unit>, v: View, ptr: int)
    requires Rep(m, v) && LiveAt(v.tiles, ptr)
    ensures Frees(v, Release(v, ptr), ptr)
  {
    hide ValidView, Frees, Release;
    ReleaseFrees(v, ptr);
  }

  lemma PayloadIsNoHeader(m: seq<Unit>, v: View, ptr: int, offset: int, stale: set<int>, u: Unit)
    requires Rep(m, v) && StaleOk(m, v, stale) && LiveAt(v.tiles, ptr)
    requires 0 <= offset && offset + 1 < SizeAt(v.tiles, ptr - 1)
    ensures v.first < ptr + offset < |m|
    ensures Rep(m[ptr + offset := u], v) && StaleOk(m[ptr + offset := u], v, stale)
  {
    ContiguousBounds(v.tiles, v.first);
    var x, i := ptr + offset, TileAt(v.tiles, ptr - 1);
    var m' := m[x := u];
    forall k | 0 <= k < |v.tiles|
      ensures v.tiles[k].addr != x
    {
      if k < i { TilesOrdered(v.tiles, v.first, k, i); } else if i < k { TilesOrdered(v.tiles, v.first, i, k); }
    }
    forall k | 0 <= k < |FreeList(v)|
      ensures FreeList(v)[k] != x
    {
      assert FreeList(v)[k] in FreeList(v);
      if FreeList(v)[k] != v.sentinel { var o := TileOfFree(v.tiles, FreeList(v)[k]); }
    }
    RingFrame(m, m', FreeList(v));
  }

  // ----- what an operation writes -------------------------------------------------------------

  ghost predicate SameOutside(m: seq<Unit>, m': seq<Unit>, lo: int, hi: int) {
    |m'| == |m| && forall x {:trigger m'[x]} :: 0 <= x < |m| && !(lo <= x < hi) ==> m'[x] == m[x]
  }

  /** Only the count and rover, free blocks' headers and the header at `hdr` are written. */
  ghost predicate Written(m: seq<Unit>, m': seq<Unit>, v: View, hdr: int) {
    |m'| == |m|
    && forall x {:trigger m'[x]} :: 0 <= x < |m| && x != v.first - 1 && x !in FreeList(v) && x != hdr ==> m'[x] == m[x]
  }

  /**
   Nothing outside the arena is written, its first header word included, nor any unit of a live block but the one at
   `hdr`.
   */
  ghost predicate Confined(m: seq<Unit>, m': seq<Unit>, v: View, hdr: int) {
    && SameOutside(m, m', v.first - 1, v.sentinel + 1)
    && forall i :: 0 <= i < |v.tiles| && v.tiles[i].live && v.tiles[i].addr != hdr ==> SameTile(m, m', v.tiles[i])
  }

  ghost predicate SameTile(m: seq<Unit>, m': seq<Unit>, t: Tile) {
    |m'| == |m| && forall x {:trigger m'[x]} :: 0 <= x < |m| && t.addr <= x < t.addr + t.size ==> m'[x] == m[x]
  }

  lemma ConfinedNow(m: seq<Unit>, v: View, hdr: int)
    ensures Confined(m, m, v, hdr)
  {
  }

  /** A free-list address lies in the arena and in no live block. */
  lemma ListedIsFree(v: View, x: int, k: int)
    requires ValidView(v) && x in FreeList(v) && 0 <= k < |v.tiles| && v.tiles[k].live
    ensures v.first <= x <= v.sentinel && !(v.tiles[k].addr <= x < v.tiles[k].addr + v.tiles[k].size)
  {
    FreeListIncreasing(v);
    ContiguousBounds(v.tiles, v.first);
    if x != v.sentinel {
      var j := TileOfFree(v.tiles, x);
      if j < k { TilesOrdered(v.tiles, v.first, j, k); } else { TilesOrdered(v.tiles, v.first, k, j); }
    }
  }

  /** Writes at free headers, and at one in a free block or a live block's own, leave the other live blocks. */
  lemma WrittenIsConfined(m: seq<Unit>, m': seq<Unit>, v: View, q: int, hdr: int)
    requires ValidView(v) && Written(m, m', v, q) && v.first <= q <= v.sentinel
    requires forall k :: 0 <= k < |v.tiles| && v.tiles[k].live && v.tiles[k].addr != hdr ==>
      !(v.tiles[k].addr <= q < v.tiles[k].addr + v.tiles[k].size)
    ensures Confined(m, m', v, hdr)
  {
    FreeListAbove(v);
    ContiguousBounds(v.tiles, v.first);
    hide ValidView, FreeList;
    forall k | 0 <= k < |v.tiles| && v.tiles[k].live && v.tiles[k].addr != hdr
      ensures SameTile(m, m', v.tiles[k])
    {
      var t := v.tiles[k];
      forall x {:trigger m'[x]} | 0 <= x < |m| && t.addr <= x < t.addr + t.size
        ensures m'[x] == m[x]
      {
        if x in FreeList(v) { ListedIsFree(v, x, k); }
      }
    }
    assert forall x :: x in FreeList(v) ==> v.first <= x <= v.sentinel;
  }

  /** The header before `ptr` lies between the first block and the end the arena was given. */
  ghost predicate InExtent(m: seq<Unit>, v: View, ptr: int)
    requires 2 <= v.first && v.first - 2 < |m|
  {
    v.first <= ptr - 1 && 8 * (ptr - 1) < 8 * (v.first - 2) + m[v.first - 2].size
  }

  /** Pointers a caller may pass: blocks live, freed or never carved, and anything out of range. */
  ghost predicate Known(m: seq<Unit>, v: View, stale: set<int>, ptr: int) {
    2 <= v.first && v.first - 2 < |m| &&
    (InExtent(m, v, ptr) ==> LiveAt(v.tiles, ptr) || ptr - 1 in stale || ptr - 1 in FreeList(v))
  }

  /** The words of an arena just prepared: its own two, one free block of all the rest, and the sentinel. */
  ghost predicate JustPrepared(m: seq<Unit>, at: int, size: int) {
    var last := at + 1 + (size - 0x10) / 8;
    && 0 <= at && at + 2 < last < |m|
    && m[at] == Unit(8 * at - 1, size) && m[at + 1] == Unit(0, at + 2)
    && m[at + 2] == Unit(last, (size - 0x10) / 8 - 1) && m[last] == Unit(at + 2, 0)
  }

  /** heapPrepare's writes: the arena's header, one free block, and the sentinel. */
  method PrepareIn(m0: seq<Unit>, at: int, size: int) returns (m: seq<Unit>)
    requires 0 < at < |m0| - 1 && size >= 0x29 && at + 2 + (size - 0x10) / 8 <= |m0|
    ensures |m| == |m0| && m[at].size == size && Prepared(m, at)
    ensures Rep(m, Fresh(at + 2, (size - 0x10) / 8 - 1)) && StaleOk(m, Fresh(at + 2, (size - 0x10) / 8 - 1), {})
    ensures SameOutside(m0, m, at, at + 2 + (size - 0x10) / 8)
    ensures JustPrepared(m, at, size)
  {
    var units := (size - 0x10) / 8;
    var first := at + 2;
    var sentinel := first + (units - 1);
    m := m0[at := Unit(Magic(at), size)];
    m := m[at + 1 := Unit(0, first)];
    m := m[first := Unit(sentinel, units - 1)];
    m := m[sentinel := Unit(first, 0)];
    ghost var view := Fresh(first, units - 1);
    FreshValid(first, units - 1);
    assert FreeAddrs(view.tiles) == [first];
    assert FreeList(view) == [first, sentinel];
  }

  /** HeapFree's bracketing walk and coalescing, over the memory it is given. */
  method FreeIn(m0: seq<Unit>, at: int, ptr: int, ghost v: View, ghost stale: set<int>)
    returns (m: seq<Unit>, code: int)
    requires 0 < at < |m0| - 1
    requires Prepared(m0, at) ==> v.first == at + 2 && Rep(m0, v) && StaleOk(m0, v, stale) && Known(m0, v, stale, ptr)
    ensures Prepared(m0, at) && LiveAt(v.tiles, ptr) ==>
      && code == 0 && |m| == |m0| && Prepared(m, at)
      && Rep(m, Release(v, ptr)) && StaleOk(m, Release(v, ptr), stale + {ptr - 1})
    ensures !(Prepared(m0, at) && LiveAt(v.tiles, ptr)) ==>
      m == m0
      && code == if !Prepared(m0, at) then BAD_ARENA else if InExtent(m0, v, ptr) then NOT_OWNED else OUT_OF_RANGE
    ensures |m| == |m0|
    ensures code == 0 ==> Confined(m0, m, v, ptr - 1) && Written(m0, m, v, ptr - 1)
  {
    hide Rep, StaleOk, ValidView, FreeList, Known, Released, Predecessor, Confined, Written;
    m := m0;
    if m[at].next != Magic(at) { return m, BAD_ARENA; }
    var first := at + 2;
    var bp := ptr - 1;
    KnownPointer(m, v, stale, ptr);
    if bp < first || 8 * bp >= 8 * at + m[at].size { return m, OUT_OF_RANGE; }
    if m[bp].next != at { return m, NOT_OWNED; }

    EnterRing(m, v);
    var p := m[at + 1].size;
    ghost var f := FreeList(v);
    ghost var i := TileAt(v.tiles, bp);
    ghost var goal := Cyclic(Below(v, i), |f|);
    ghost var j := IndexOf(f, p);
    while true
      invariant 0 <= j < |f| && p == f[j]
      decreases if j <= goal then goal - j else goal - j + |f|
    {
      Bracket(m, v, i, j);
      if bp == p || bp == m[p].next { return m, CORRUPTED; }
      if p < bp && p + m[p].size > bp { return m, CORRUPTED; }
      if p < m[p].next {
        if p < bp && bp < m[p].next { break; }
      } else if bp > p || bp < m[p].next {
        break;
      }
      p := m[p].next;
      j := if j + 1 < |f| then j + 1 else 0;
    }
    Neighbours(m, v, i);
    var n := m[p].next;
    if m[n].size != 0 && bp + m[bp].size > n { return m, CORRUPTED; }
    m := Splice(m, at, bp, p);
    FreeRep(m0, v, i);
    FreeStale(m0, v, i, stale);
    FreeWrites(m0, v, i);
    code := 0;
  }

  /** HeapFree's writes: off the used count, into the ring behind `p`, merged with a free block on either side. */
  method Splice(m0: seq<Unit>, at: int, bp: int, p: int) returns (m: seq<Unit>)
    requires 0 <= at < |m0| - 1 && at + 1 < bp < |m0| && at + 1 < p < |m0| && p != bp
    requires at + 1 < m0[p].next < |m0| && m0[p].next != bp
    ensures m == FreeMem(m0, at, bp, p)
  {
    m := m0;
    var n := m[p].next;
    m := m[at + 1 := m[at + 1].(next := m[at + 1].next - m[bp].size)];
    if m[n].size != 0 && bp + m[bp].size == n {
      m := m[bp := Unit(m[n].next, m[bp].size + m[n].size)];
    } else {
      m := m[bp := m[bp].(next := n)];
    }
    if p + m[p].size == bp {
      m := m[p := Unit(m[bp].next, m[p].size + m[bp].size)];
    } else {
      m := m[p := m[p].(next := bp)];
    }
    m := m[at + 1 := m[at + 1].(size := p)];
  }

  /** HeapAlloc's walk of the ring, over the memory it is given. */
  method AllocIn(m0: seq<Unit>, at: int, requested: int, ghost v: View, ghost stale: set<int>)
    returns (m: seq<Unit>, r: Option<int>)
    requires 0 < at < |m0| - 1 && 0 <= requested < WORD
    requires Prepared(m0, at) ==> v.first == at + 2 && Rep(m0, v) && StaleOk(m0, v, stale)
    ensures !Prepared(m0, at) ==> r == None
    ensures Prepared(m0, at) ==>
      && r == Allocate(v, UnitsFor(requested)).1
      && |m| == |m0| && Prepared(m, at) && Rep(m, Allocate(v, UnitsFor(requested)).0)
      && StaleOk(m, Allocate(v, UnitsFor(requested)).0,
                 if r.None? then stale else Unissued(stale, r.value - 1, UnitsFor(requested)))
    ensures r == None ==> m == m0
    ensures |m| == |m0|
    ensures r.Some? ==> Confined(m0, m, v, 0) && Written(m0, m, v, r.value - 1)
  {
    hide Confined, Written;
    hide Rep, StaleOk, ValidView, Rotation, Allocate, Unissued, SizeAt, TileAt, FreeList, CanCarve, CarvedAddr, Magic;
    m := m0;
    if m[at].next != Magic(at) { return m, None; }
    EnterRing(m, v);
    var n := if requested < 8 then 8 else requested;
    var units := (n + 7) % WORD / 8 + 1;
    var rover := m[at + 1].size;
    var prev := rover;
    var p := m[prev].next;
    ghost var rot := Rotation(v);
    ghost var k := 0;
    while true
      invariant m == m0 && v.rover == rover && at == v.first - 2
      invariant 0 <= k < |rot| && p == rot[k] && prev == rot[Cyclic(k, |rot|)]
      invariant forall j :: 0 <= j < k ==> SizeAt(v.tiles, rot[j]) < units
      decreases |rot| - k
    {
      AtPosition(m, v, k);
      if m[p].size >= units {
        AllocSome(m0, v, units, k, stale);
        ghost var i := TileAt(v.tiles, p);
        m, p := Take(m0, at, p, prev, units, v, i);
        CarveWrites(m0, v, i, units, prev);
        return m, Some(p + 1);
      }
      if p == rover {
        SearchExhausted(v, units, k);
        return m, None;
      }
      prev := p;
      p := m[p].next;
      k := k + 1;
    }
  }

  /** The fitting branch: unlink an exact fit, or split from the tail; then tag the block. */
  method Take(m0: seq<Unit>, at: int, fit: int, prev: int, units: int, ghost v: View, ghost i: int)
    returns (m: seq<Unit>, p: int)
    requires CanCarve(m0, v, i, units, prev) && fit == v.tiles[i].addr && at == v.first - 2
    ensures p == CarvedAddr(v.tiles, i, units)
    ensures m == Carving(m0, v, i, units, prev)
  {
    m, p := m0, fit;
    if m[p].size == units {
      m := m[prev := m[prev].(next := m[p].next)];
    } else {
      m := m[p := m[p].(size := m[p].size - units)];
      p := p + m[p].size;
      m := m[p := m[p].(size := units)];
    }
    m := m[at + 1 := Unit(m[at + 1].next + units, prev)];
    m := m[p := m[p].(next := at)];
  }

  /** The stale headers a new block of `units` at `q` does not cover. */
  ghost function Unissued(stale: set<int>, q: int, units: int): set<int> {
    set x | x in stale && !(q <= x < q + units)
  }

  /** Headers that held a freed block and have not been covered by a new one still link into the arena. */
  ghost predicate StaleOk(m: seq<Unit>, v: View, stale: set<int>) {
    match v
    case View(_, _, _, _) =>
    && (forall x {:trigger x in stale} :: x in stale ==>
         0 <= v.first <= x < v.sentinel && x < |m| && v.first <= m[x].next <= v.sentinel)
    && (forall x, i {:trigger x in stale, v.tiles[i]} :: x in stale && 0 <= i < |v.tiles| && v.tiles[i].live ==>
         !(v.tiles[i].addr <= x < v.tiles[i].addr + v.tiles[i].size))
  }

  // ----- allocation: the memory after a carve --------------------------------------------

  lemma RotationRing(m: seq<Unit>, v: View)
    requires Rep(m, v)
    ensures Ring(m, Rotation(v))
  {
    var f := FreeList(v);
    RingRotate(m, f, IndexOf(f, v.rover) + 1);
  }

  /** The search starts at the block the rover's link names. */
  lemma EnterRing(m: seq<Unit>, v: View)
    requires Rep(m, v)
    ensures ValidView(v) && v.rover in FreeList(v) && 1 <= v.first <= |m|
    ensures 0 <= v.rover < |m| && m[v.first - 1] == Unit(LiveUnits(v.tiles), v.rover)
    ensures m[v.rover].next == Rotation(v)[0]
  {
    RotationRing(m, v);
    var rot := Rotation(v);
    assert m[rot[|rot| - 1]].next == Next(rot, |rot| - 1);
  }

  /** A block met on the ring carries the size of its tile; the sentinel carries zero. */
  lemma FreeHeader(m: seq<Unit>, v: View, x: int)
    requires Rep(m, v) && x in FreeList(v)
    ensures v.first <= x <= v.sentinel && m[x].size == SizeAt(v.tiles, x)
  {
    FreeListIncreasing(v);
    SentinelSize(v);
    if x != v.sentinel {
      var i := TileOfFree(v.tiles, x);
      TileAtUnique(v.tiles, v.first, i);
    }
  }

  /** The search's position: where the link leads, and the block's own size. */
  lemma AtPosition(m: seq<Unit>, v: View, k: int)
    requires Rep(m, v) && 0 <= k < |Rotation(v)|
    ensures var rot := Rotation(v); var p := rot[k];
      && v.first <= p < |m| && m[p].size == SizeAt(v.tiles, p)
      && (k + 1 < |rot| ==> m[p].next == rot[k + 1])
  {
    RotationRing(m, v);
    var rot := Rotation(v);
    assert m[rot[k]].next == Next(rot, k);
    assert rot[k] in multiset(rot);
    FreeHeader(m, v, rot[k]);
  }

  lemma CanTake(m: seq<Unit>, v: View, units: int, k: int)
    requires Rep(m, v) && units > 0 && 0 <= k < |Rotation(v)|
    requires var rot := Rotation(v); var p := rot[k]; var prev := rot[Cyclic(k, |rot|)];
      var i := TileAt(v.tiles, p);
      && i < |v.tiles| && !v.tiles[i].live && v.tiles[i].addr == p && units <= v.tiles[i].size
      && prev in FreeList(v) && prev != p
    ensures CanCarve(m, v, TileAt(v.tiles, Rotation(v)[k]), units, Rotation(v)[Cyclic(k, |Rotation(v)|)])
  {
    var rot := Rotation(v);
    AtPosition(m, v, Cyclic(k, |rot|));
    EnterRing(m, v);
    ContiguousBounds(v.tiles, v.first);
  }

  lemma AllocSome(m: seq<Unit>, v: View, units: int, k: int, stale: set<int>)
    requires Rep(m, v) && StaleOk(m, v, stale) && units > 0 && 0 <= k < |Rotation(v)|
    requires SizeAt(v.tiles, Rotation(v)[k]) >= units
    requires forall j :: 0 <= j < k ==> SizeAt(v.tiles, Rotation(v)[j]) < units
    ensures var rot := Rotation(v); var prev := rot[Cyclic(k, |rot|)]; var i := TileAt(v.tiles, rot[k]);
      && CanCarve(m, v, i, units, prev)
      && Allocate(v, units).1 == Some(CarvedAddr(v.tiles, i, units) + 1)
      && Rep(Carving(m, v, i, units, prev), Allocate(v, units).0)
      && StaleOk(Carving(m, v, i, units, prev), Allocate(v, units).0,
        Unissued(stale, CarvedAddr(v.tiles, i, units), units))
  {
    var rot := Rotation(v);
    var prev, i := rot[Cyclic(k, |rot|)], TileAt(v.tiles, rot[k]);
    AllocateAt(v, units, k);
    CanTake(m, v, units, k);
    CarveRep(m, v, i, units, prev);
    CarveStale(m, v, i, units, prev, stale);
  }

  /** A search that has come back to the rover without a fit answers none. */
  lemma SearchExhausted(v: View, units: int, k: int)
    requires ValidView(v) && units > 0 && 0 <= k < |Rotation(v)| && Rotation(v)[k] == v.rover
    requires forall j :: 0 <= j <= k ==> SizeAt(v.tiles, Rotation(v)[j]) < units
    ensures k == |Rotation(v)| - 1 && Allocate(v, units) == (v, None)
  {
    RotationDistinct(v);
    AllocateNone(v, units);
  }

  lemma RingPredecessor(m: seq<Unit>, f: seq<int>, j: int, x: int)
    requires Ring(m, f) && Lists.Distinct(f) && 0 <= j < |f| && x in f && m[x].next == f[j]
    ensures x == Before(f, j)
  {
    var i :| 0 <= i < |f| && f[i] == x;
    assert m[f[i]].next == Next(f, i);
  }

  /** Memory once `units` have been carved at `q` from the free block at `p`. */
  ghost function CarveMem(m: seq<Unit>, at: int, p: int, q: int, units: int, prev: int): (m': seq<Unit>)
    requires 0 <= at < at + 1 < |m| && at + 1 < p <= q < |m| && at + 1 < prev < |m| && prev != p
    ensures |m'| == |m| && m'[q] == Unit(at, units) && m'[at] == m[at]
    ensures m'[at + 1] == Unit(m[at + 1].next + units, prev)
    ensures p == q && prev != q ==> m'[prev] == Unit(m[p].next, m[prev].size)
    ensures p != q ==> m'[p] == Unit(m[p].next, m[p].size - units)
    ensures forall x :: 0 <= x < |m| && x != at + 1 && x != q && x != (if p == q then prev else p) ==> m'[x] == m[x]
  {
    var m1 := if q == p then m[prev := m[prev].(next := m[p].next)] else m[p := m[p].(size := m[p].size - units)];
    m1[at + 1 := Unit(m1[at + 1].next + units, prev)][q := Unit(at, units)]
  }

  /** CarveMem for tile `i` of the view. */
  ghost function Carving(m: seq<Unit>, v: View, i: int, units: int, prev: int): (m': seq<Unit>)
    requires 0 <= i < |v.tiles| && 2 <= v.first <= v.tiles[i].addr && 0 < units <= v.tiles[i].size
    requires v.tiles[i].addr + v.tiles[i].size <= |m| && v.first <= prev < |m| && prev != v.tiles[i].addr
  {
    CarveMem(m, v.first - 2, v.tiles[i].addr, CarvedAddr(v.tiles, i, units), units, prev)
  }

  ghost predicate CanCarve(m: seq<Unit>, v: View, i: int, units: int, prev: int) {
    && Rep(m, v) && 0 <= i < |v.tiles| && !v.tiles[i].live && 0 < units <= v.tiles[i].size
    && prev in FreeList(v) && 0 <= prev < |m| && m[prev].next == v.tiles[i].addr && prev != v.tiles[i].addr
    && v.first <= v.tiles[i].addr && v.tiles[i].addr + v.tiles[i].size <= |m| && v.first <= prev
  }

  lemma CarveRep(m: seq<Unit>, v: View, i: int, units: int, prev: int)
    requires CanCarve(m, v, i, units, prev)
    ensures Rep(Carving(m, v, i, units, prev), v.(tiles := Carve(v.tiles, i, units), rover := prev))
  {
    hide ValidView, Headers, Ring, Carve, Contiguous, FreeAddrs, Units, LiveUnits;
    var m' := Carving(m, v, i, units, prev);
    var v' := v.(tiles := Carve(v.tiles, i, units), rover := prev);
    Tiled(v);
    CarveValid(v, i, units, prev);
    CarveMeasures(v.tiles, v.first, i, units);
    FreeListIncreasing(v);
    ContiguousBounds(v.tiles, v.first);
    CarveHeaders(m, v, i, units, prev);
    CarveRing(m, v, i, units, prev);
  }

  /** Carving writes the count, the free block's or its predecessor's header, and the new block's. */
  lemma CarveWrites(m: seq<Unit>, v: View, i: int, units: int, prev: int)
    requires CanCarve(m, v, i, units, prev)
    ensures var q := CarvedAddr(v.tiles, i, units); var m' := Carving(m, v, i, units, prev);
      Written(m, m', v, q) && Confined(m, m', v, 0)
  {
    var ts, q, m' := v.tiles, CarvedAddr(v.tiles, i, units), Carving(m, v, i, units, prev);
    FreeOfTile(ts, i);
    assert ts[i].addr in FreeList(v);
    ContiguousBounds(ts, v.first);
    forall k | 0 <= k < |ts| && ts[k].live
      ensures !(ts[k].addr <= q < ts[k].addr + ts[k].size)
    {
      if k < i { TilesOrdered(ts, v.first, k, i); } else { TilesOrdered(ts, v.first, i, k); }
    }
    WrittenIsConfined(m, m', v, q, 0);
  }

  lemma CarveHeaders(m: seq<Unit>, v: View, i: int, units: int, prev: int)
    requires CanCarve(m, v, i, units, prev)
    ensures Headers(Carving(m, v, i, units, prev), v.(tiles := Carve(v.tiles, i, units), rover := prev))
  {
    var m' := Carving(m, v, i, units, prev);
    var ts, ts' := v.tiles, Carve(v.tiles, i, units);
    var d := |ts'| - |ts|;
    var q := CarvedAddr(ts, i, units);
    ContiguousBounds(ts, v.first);
    FreeListIncreasing(v);
    forall k | 0 <= k < |ts'|
      ensures 0 <= ts'[k].addr < |m'| && m'[ts'[k].addr].size == ts'[k].size
      ensures ts'[k].live ==> m'[ts'[k].addr].next == v.first - 2
    {
      if k < i {
        assert ts'[k] == ts[k];
        TilesOrdered(ts, v.first, k, i);
        if ts[k].live { PrevIsFree(v, prev, k); }
      } else if k > i + d {
        assert ts'[k] == ts[k - d];
        TilesOrdered(ts, v.first, i, k - d);
        if ts[k - d].live { PrevIsFree(v, prev, k - d); }
      }
    }
  }

  /** A free-list address never names a live tile. */
  lemma PrevIsFree(v: View, x: int, k: int)
    requires ValidView(v) && x in FreeList(v) && 0 <= k < |v.tiles| && v.tiles[k].live
    ensures v.tiles[k].addr != x
  {
    ContiguousBounds(v.tiles, v.first);
    if x != v.sentinel {
      var j := TileOfFree(v.tiles, x);
      TileAtUnique(v.tiles, v.first, j);
      TileAtUnique(v.tiles, v.first, k);
    }
  }

  lemma FreeListAbove(v: View)
    requires ValidView(v)
    ensures forall k :: 0 <= k < |FreeList(v)| ==> v.first <= FreeList(v)[k] <= v.sentinel
  {
    FreeListIncreasing(v);
    assert forall k :: 0 <= k < |FreeList(v)| ==> FreeList(v)[k] in FreeList(v);
  }

  lemma FreeListDistinct(v: View)
    requires ValidView(v)
    ensures Lists.Distinct(FreeList(v))
  {
    FreeListIncreasing(v);
  }

  /** Where the free tile `i` sits on the free list, and what carving it leaves there. */
  lemma CarveFreeList(v: View, i: int, units: int, rover: int)
    requires ValidView(v) && 0 <= i < |v.tiles| && !v.tiles[i].live && 0 < units <= v.tiles[i].size
    ensures var f, j := FreeList(v), |FreeAddrs(v.tiles[..i])|;
      && j + 1 < |f| && f[j] == v.tiles[i].addr
      && FreeList(v.(tiles := Carve(v.tiles, i, units), rover := rover))
         == if v.tiles[i].size == units then f[..j] + f[j + 1..] else f
  {
    hide ValidView, Contiguous, Units, LiveUnits, FreeAddrs, Carve;
    Tiled(v);
    var a, b := FreeAddrs(v.tiles[..i]), FreeAddrs(v.tiles[i + 1..]) + [v.sentinel];
    SplitAt(v.tiles, v.first, i);
    assert FreeList(v) == a + [v.tiles[i].addr] + b;
    CarveMeasures(v.tiles, v.first, i, units);
    WithoutMiddle(a, v.tiles[i].addr, b);
  }

  lemma WithoutMiddle<T>(a: seq<T>, x: T, b: seq<T>)
    ensures (a + [x] + b)[..|a|] + (a + [x] + b)[|a| + 1..] == a + b
    ensures (a + [x] + b)[|a|] == x
  {
  }

  lemma CarveMemRing(m: seq<Unit>, f: seq<int>, j: int, at: int, q: int, units: int, prev: int)
    requires Ring(m, f) && Lists.Distinct(f) && |f| > 1 && 0 <= j < |f|
    requires 0 <= at && (forall k :: 0 <= k < |f| ==> at + 1 < f[k])
    requires f[j] <= q < |m| && prev in f && prev != f[j] && m[prev].next == f[j]
    requires q == f[j] || q !in f
    ensures Ring(CarveMem(m, at, f[j], q, units, prev), if q == f[j] then f[..j] + f[j + 1..] else f)
  {
    var m' := CarveMem(m, at, f[j], q, units, prev);
    RingPredecessor(m, f, j, prev);
    if q == f[j] {
      RingRemove(m, m', f, j);
    } else {
      assert forall k :: 0 <= k < |f| ==> f[k] in f;
      RingFrame(m, m', f);
    }
  }

  lemma RepRing(m: seq<Unit>, v: View)
    requires Rep(m, v)
    ensures ValidView(v) && Ring(m, FreeList(v)) && 2 <= v.first && v.sentinel < |m|
  {
  }

  lemma CarveRing(m: seq<Unit>, v: View, i: int, units: int, prev: int)
    requires CanCarve(m, v, i, units, prev)
    ensures Ring(Carving(m, v, i, units, prev), FreeList(v.(tiles := Carve(v.tiles, i, units), rover := prev)))
  {
    hide Rep, ValidView, Ring, Lists.Distinct, FreeList, CarveMem, Carve;
    RepRing(m, v);
    var f, j := FreeList(v), |FreeAddrs(v.tiles[..i])|;
    CarveFreeList(v, i, units, prev);
    assert Lists.Distinct(f) by { FreeListDistinct(v); }
    FreeListAbove(v);
    var q := CarvedAddr(v.tiles, i, units);
    if q != f[j] { CarvedIsNoHeader(v, i, units); }
    CarveMemRing(m, f, j, v.first - 2, q, units, prev);
  }

  lemma CarvedIsNoHeader(v: View, i: int, units: int)
    requires ValidView(v) && 0 <= i < |v.tiles| && !v.tiles[i].live && 0 < units < v.tiles[i].size
    ensures CarvedAddr(v.tiles, i, units) !in FreeList(v)
  {
    var q := CarvedAddr(v.tiles, i, units);
    ContiguousBounds(v.tiles, v.first);
    if q in FreeList(v) {
      var k := TileOfFree(v.tiles, q);
      if k < i { TilesOrdered(v.tiles, v.first, k, i); } else if i < k { TilesOrdered(v.tiles, v.first, i, k); }
    }
  }

  lemma CarveStale(m: seq<Unit>, v: View, i: int, units: int, prev: int, stale: set<int>)
    requires CanCarve(m, v, i, units, prev) && StaleOk(m, v, stale)
    ensures var q := CarvedAddr(v.tiles, i, units);
      StaleOk(Carving(m, v, i, units, prev), v.(tiles := Carve(v.tiles, i, units), rover := prev),
              Unissued(stale, q, units))
  {
    var q := CarvedAddr(v.tiles, i, units);
    var stale' := Unissued(stale, q, units);
    var m' := Carving(m, v, i, units, prev);
    assert v.first <= m[v.tiles[i].addr].next <= v.sentinel by {
      FreeOfTile(v.tiles, i);
      FreeNextInside(m, v, v.tiles[i].addr);
    }
    assert forall x :: x in stale' ==> v.first <= m'[x].next <= v.sentinel;
    CarveOutside(v.tiles, i, units, stale);
  }

  /** No stale header left lies inside a live block. */
  lemma CarveOutside(ts: seq<Tile>, i: int, units: int, stale: set<int>)
    requires 0 <= i < |ts| && !ts[i].live && 0 < units <= ts[i].size
    requires forall x, k :: x in stale && 0 <= k < |ts| && ts[k].live ==> !(ts[k].addr <= x < ts[k].addr + ts[k].size)
    ensures var ts' := Carve(ts, i, units);
      forall x, k :: x in Unissued(stale, CarvedAddr(ts, i, units), units) && 0 <= k < |ts'| && ts'[k].live ==>
        !(ts'[k].addr <= x < ts'[k].addr + ts'[k].size)
  {
    var ts' := Carve(ts, i, units);
    var d := |ts'| - |ts|;
    forall x, k | x in Unissued(stale, CarvedAddr(ts, i, units), units) && 0 <= k < |ts'| && ts'[k].live
      ensures !(ts'[k].addr <= x < ts'[k].addr + ts'[k].size)
    {
      if k < i { assert ts'[k] == ts[k]; } else if k > i + d { assert ts'[k] == ts[k - d]; }
    }
  }

  /** A free block's link stays between the first block and the sentinel, so it is never the ownership tag. */
  lemma FreeNextInside(m: seq<Unit>, v: View, x: int)
    requires Rep(m, v) && x in FreeList(v)
    ensures 0 <= x < |m| && v.first <= m[x].next <= v.sentinel
  {
    var f := FreeList(v);
    var i :| 0 <= i < |f| && f[i] == x;
    FreeListIncreasing(v);
    assert m[f[i]].next == Next(f, i) && Next(f, i) in f;
  }

  // ----- release: the bracketing walk and the memory after it ------------------------------

  /** What the tag tells about a known pointer. */
  lemma KnownPointer(m: seq<Unit>, v: View, stale: set<int>, ptr: int)
    requires Rep(m, v) && StaleOk(m, v, stale) && Known(m, v, stale, ptr)
    ensures 2 <= v.first && v.first - 2 < |m|
    ensures InExtent(m, v, ptr) ==> 0 <= ptr - 1 < |m| && (m[ptr - 1].next == v.first - 2 <==> LiveAt(v.tiles, ptr))
    ensures InExtent(m, v, ptr) && !LiveAt(v.tiles, ptr) ==> v.first <= m[ptr - 1].next <= v.sentinel
    ensures LiveAt(v.tiles, ptr) ==> InExtent(m, v, ptr)
  {
    ContiguousBounds(v.tiles, v.first);
    if InExtent(m, v, ptr) && !LiveAt(v.tiles, ptr) && ptr - 1 !in stale {
      FreeNextInside(m, v, ptr - 1);
    }
  }

  /** How many free blocks lie below tile `i`. */
  ghost function Below(v: View, i: int): (h: int)
    requires 0 <= i < |v.tiles|
    ensures 0 <= h
  {
    |FreeAddrs(v.tiles[..i])|
  }

  /** Live tile `i` sits between positions `Below - 1` and `Below` of the free list. */
  lemma FreeListAround(v: View, i: int)
    requires ValidView(v) && 0 <= i < |v.tiles| && v.tiles[i].live
    ensures var f, h := FreeList(v), Below(v, i);
      && h < |f|
      && (forall k :: 0 <= k < h ==> f[k] < v.tiles[i].addr)
      && (forall k :: h <= k < |f| ==> v.tiles[i].addr < f[k])
  {
    hide ValidView, Contiguous, Units, LiveUnits, FreeAddrs;
    Tiled(v);
    var f, h := FreeList(v), Below(v, i);
    var a, b := FreeAddrs(v.tiles[..i]), FreeAddrs(v.tiles[i + 1..]);
    SplitAt(v.tiles, v.first, i);
    SplitBounds(v.tiles, v.first, i);
    ContiguousBounds(v.tiles, v.first);
    assert f == a + b + [v.sentinel];
    forall k | 0 <= k < |f|
      ensures if k < h then f[k] < v.tiles[i].addr else v.tiles[i].addr < f[k]
    {
      if k < h { assert f[k] == a[k] && a[k] in a; } else if k < |f| - 1 { assert f[k] == b[k - h] && b[k - h] in b; }
    }
  }

  lemma Bracket(m: seq<Unit>, v: View, i: int, j: int)
    requires Rep(m, v) && 0 <= i < |v.tiles| && v.tiles[i].live && 0 <= j < |FreeList(v)|
    ensures var f := FreeList(v); var p, bp := f[j], v.tiles[i].addr; var h := Below(v, i);
      && h < |f|
      && 0 <= p < |m| && m[p].next == Next(f, j) && p != bp && m[p].next != bp
      && (p < bp ==> p + m[p].size <= bp)
      && (j == Cyclic(h, |f|) <==> if p < m[p].next then p < bp && bp < m[p].next else bp > p || bp < m[p].next)
  {
    var f := FreeList(v);
    var p, bp, h := f[j], v.tiles[i].addr, Below(v, i);
    FreeListAround(v, i);
    assert m[f[j]].next == Next(f, j);
    FreeListIncreasing(v);
    assert p in f;
    FreeHeader(m, v, p);
    if p < bp {
      ContiguousBounds(v.tiles, v.first);
      var k := TileOfFree(v.tiles, p);
      TileAtUnique(v.tiles, v.first, k);
      if k < i { TilesOrdered(v.tiles, v.first, k, i); } else { TilesOrdered(v.tiles, v.first, i, k); }
    }
  }

  /** The blocks either side of live tile `i`, and how the headers show a free neighbour. */
  lemma Neighbours(m: seq<Unit>, v: View, i: int)
    requires Rep(m, v) && 0 <= i < |v.tiles| && v.tiles[i].live
    ensures var f, h, t := FreeList(v), Below(v, i), v.tiles[i];
      && h < |f|
      && var p, n := f[Cyclic(h, |f|)], f[h];
      && p == Predecessor(v, i) && v.first <= p < |m| && v.first <= n < |m| && v.first <= t.addr < |m|
      && m[p].next == n && m[t.addr] == Unit(v.first - 2, t.size)
      && p != t.addr && n != t.addr
      && !(m[n].size != 0 && t.addr + t.size > n)
      && (m[n].size != 0 && t.addr + t.size == n <==> FreeAfter(v.tiles, i))
      && (FreeAfter(v.tiles, i) ==> n == v.tiles[i + 1].addr && m[n].size == v.tiles[i + 1].size)
      && (p + m[p].size == t.addr <==> FreeBefore(v.tiles, i))
      && (FreeBefore(v.tiles, i) ==> p == v.tiles[i - 1].addr && m[p].size == v.tiles[i - 1].size)
  {
    var f, h, t := FreeList(v), Below(v, i), v.tiles[i];
    FreeListAround(v, i);
    var p, n := f[Cyclic(h, |f|)], f[h];
    FreeListAbove(v);
    ContiguousBounds(v.tiles, v.first);
    assert m[p].next == n by { assert m[f[Cyclic(h, |f|)]].next == Next(f, Cyclic(h, |f|)); }
    NeighbourAfter(m, v, i);
    NeighbourBefore(m, v, i);
  }

  lemma NeighbourAfter(m: seq<Unit>, v: View, i: int)
    requires Rep(m, v) && 0 <= i < |v.tiles| && v.tiles[i].live && Below(v, i) < |FreeList(v)|
    ensures var n, t := FreeList(v)[Below(v, i)], v.tiles[i];
      && v.first <= n < |m|
      && !(m[n].size != 0 && t.addr + t.size > n)
      && (m[n].size != 0 && t.addr + t.size == n <==> FreeAfter(v.tiles, i))
      && (FreeAfter(v.tiles, i) ==> n == v.tiles[i + 1].addr && m[n].size == v.tiles[i + 1].size)
  {
    var n, t := FreeList(v)[Below(v, i)], v.tiles[i];
    FreeListAbove(v);
    FreeListAround(v, i);
    ContiguousBounds(v.tiles, v.first);
    assert FreeAddrs(v.tiles) == FreeAddrs(v.tiles[..i]) + FreeAddrs(v.tiles[i + 1..]) by {
      SplitAt(v.tiles, v.first, i);
    }
    if FreeAfter(v.tiles, i) {
      assert FreeAddrs(v.tiles[i + 1..])[0] == v.tiles[i + 1].addr;
      assert t.addr + t.size == v.tiles[i + 1].addr by { SplitAt(v.tiles, v.first, i); }
    }
    if n != v.sentinel {
      var k := TileOfFree(v.tiles, n);
      if k < i { TilesOrdered(v.tiles, v.first, k, i); } else { TilesOrdered(v.tiles, v.first, i, k); }
      if t.addr + t.size == n && k > i + 1 {
        TilesOrdered(v.tiles, v.first, i, i + 1);
        TilesOrdered(v.tiles, v.first, i + 1, k);
      }
    }
  }

  lemma NeighbourBefore(m: seq<Unit>, v: View, i: int)
    requires Rep(m, v) && 0 <= i < |v.tiles| && v.tiles[i].live && Below(v, i) < |FreeList(v)|
    ensures var p, t := FreeList(v)[Cyclic(Below(v, i), |FreeList(v)|)], v.tiles[i];
      && p == Predecessor(v, i) && v.first <= p < |m|
      && (p + m[p].size == t.addr <==> FreeBefore(v.tiles, i))
      && (FreeBefore(v.tiles, i) ==> p == v.tiles[i - 1].addr && m[p].size == v.tiles[i - 1].size)
  {
    var f, h, t := FreeList(v), Below(v, i), v.tiles[i];
    var p := f[Cyclic(h, |f|)];
    FreeListAbove(v);
    FreeListAround(v, i);
    PredecessorIs(v, i);
    assert p in f;
    if FreeBefore(v.tiles, i) {
      FreeNeighbour(v, i);
      hide ValidView, FreeList;
      assert m[p].size == v.tiles[i - 1].size;
    } else if p < t.addr {
      EndsElsewhere(v, i, p);
      FreeHeader(m, v, p);
    } else {
      FreeHeader(m, v, p);
      FreeSizes(v, p);
    }
  }

  lemma PredecessorIs(v: View, i: int)
    requires ValidView(v) && 0 <= i < |v.tiles| && v.tiles[i].live
    ensures var f := FreeList(v); Below(v, i) < |f| && f[Cyclic(Below(v, i), |f|)] == Predecessor(v, i)
  {
    SplitAt(v.tiles, v.first, i);
  }

  /** A free tile right before a live one is the last one listed below it, and ends where it starts. */
  lemma FreeNeighbour(v: View, i: int)
    requires ValidView(v) && 0 <= i < |v.tiles| && FreeBefore(v.tiles, i) && v.tiles[i].live
    ensures var f, h := FreeList(v), Below(v, i);
      0 < h <= |f| && f[Cyclic(h, |f|)] == v.tiles[i - 1].addr
      && v.tiles[i - 1].addr + v.tiles[i - 1].size == v.tiles[i].addr
  {
    FreeListAround(v, i);
    SplitAt(v.tiles, v.first, i);
    assert v.tiles[..i] == v.tiles[..i - 1] + [v.tiles[i - 1]];
    SnocMeasures(v.tiles[..i - 1], v.tiles[i - 1], v.first);
  }

  /** With no free tile right before tile `i`, no free tile ends where it starts. */
  lemma EndsElsewhere(v: View, i: int, p: int)
    requires ValidView(v) && 0 <= i < |v.tiles| && !FreeBefore(v.tiles, i) && p in FreeList(v) && p < v.tiles[i].addr
    ensures p + SizeAt(v.tiles, p) != v.tiles[i].addr
  {
    ContiguousBounds(v.tiles, v.first);
    assert p != v.sentinel;
    var k := TileOfFree(v.tiles, p);
    TileAtUnique(v.tiles, v.first, k);
    if i < k {
      TilesOrdered(v.tiles, v.first, i, k);
    } else if k + 1 < i {
      TilesOrdered(v.tiles, v.first, k, i - 1);
      TilesOrdered(v.tiles, v.first, i - 1, i);
    }
  }

  lemma FreeSizes(v: View, p: int)
    requires ValidView(v) && p in FreeList(v)
    ensures SizeAt(v.tiles, p) >= 0
  {
    ContiguousBounds(v.tiles, v.first);
  }

  /** The freed block, grown by a free block right after it. */
  ghost function Coalesced(m: seq<Unit>, bp: int, n: int): Unit
    requires 0 <= bp < |m| && 0 <= n < |m|
  {
    if m[n].size != 0 && bp + m[bp].size == n then Unit(m[n].next, m[bp].size + m[n].size) else Unit(n, m[bp].size)
  }

  /** Memory once the block at `bp` has been freed behind `p`. */
  ghost function FreeMem(m: seq<Unit>, at: int, bp: int, p: int): (m': seq<Unit>)
    requires 0 <= at && at + 1 < bp < |m| && at + 1 < p < |m| && p != bp && at + 1 < m[p].next < |m|
    ensures |m'| == |m|
    ensures m'[at] == m[at] && m'[at + 1] == Unit(m[at + 1].next - m[bp].size, p)
    ensures m'[bp] == Coalesced(m, bp, m[p].next)
    ensures m'[p] == if p + m[p].size == bp then Unit(m'[bp].next, m[p].size + m'[bp].size) else Unit(bp, m[p].size)
    ensures forall x :: 0 <= x < |m| && x != at + 1 && x != bp && x != p ==> m'[x] == m[x]
  {
    var c := Coalesced(m, bp, m[p].next);
    var head := if p + m[p].size == bp then Unit(c.next, m[p].size + c.size) else Unit(bp, m[p].size);
    m[at + 1 := Unit(m[at + 1].next - m[bp].size, p)][bp := c][p := head]
  }

  /** FreeMem for live tile `i`. */
  ghost function Freeing(m: seq<Unit>, v: View, i: int): (m': seq<Unit>)
    requires Rep(m, v) && 0 <= i < |v.tiles| && v.tiles[i].live
    ensures |m'| == |m|
  {
    Neighbours(m, v, i);
    FreeMem(m, v.first - 2, v.tiles[i].addr, Predecessor(v, i))
  }

  /** A tile that release neither frees nor merges keeps its header. */
  lemma FreeKeepsHeader(m: seq<Unit>, v: View, i: int, o: int)
    requires Rep(m, v) && 0 <= i < |v.tiles| && v.tiles[i].live
    requires 0 <= o < |v.tiles| && o != i && (o == i - 1 ==> v.tiles[o].live)
    ensures var t := v.tiles[o];
      0 <= t.addr < |m| && Freeing(m, v, i)[t.addr].size == t.size &&
        (t.live ==> Freeing(m, v, i)[t.addr].next == v.first - 2)
  {
    var t, bp, p := v.tiles[o], v.tiles[i].addr, Predecessor(v, i);
    Neighbours(m, v, i);
    assert p in FreeList(v);
    ContiguousBounds(v.tiles, v.first);
    if o < i { TilesOrdered(v.tiles, v.first, o, i); } else { TilesOrdered(v.tiles, v.first, i, o); }
    if t.live { PrevIsFree(v, p, o); }
    if p + m[p].size == bp {
      TileAtUnique(v.tiles, v.first, i - 1);
      TileAtUnique(v.tiles, v.first, o);
    }
  }

  /** The freed block's own header: alone, or absorbed by the free block before it. */
  lemma FreeMergedHeader(m: seq<Unit>, v: View, i: int)
    requires Rep(m, v) && 0 <= i < |v.tiles| && v.tiles[i].live
    ensures var h := ReleasedHead(v.tiles, i); var t := h[|h| - 1];
      0 <= t.addr < |m| && Freeing(m, v, i)[t.addr].size == t.size && !t.live
  {
    Neighbours(m, v, i);
    assert Freeing(m, v, i)[v.tiles[i].addr].size == Gained(v.tiles, i);
  }

  lemma FreeHeaders(m: seq<Unit>, v: View, i: int)
    requires Rep(m, v) && 0 <= i < |v.tiles| && v.tiles[i].live
    ensures Headers(Freeing(m, v, i), v.(tiles := Released(v.tiles, i), rover := Predecessor(v, i)))
  {
    hide Rep, Freeing, Predecessor;
    var m', ts' := Freeing(m, v, i), Released(v.tiles, i);
    var h := ReleasedHead(v.tiles, i);
    forall k | 0 <= k < |ts'|
      ensures 0 <= ts'[k].addr < |m'| && m'[ts'[k].addr].size == ts'[k].size
      ensures ts'[k].live ==> m'[ts'[k].addr].next == v.first - 2
    {
      if k == |h| - 1 {
        FreeMergedHeader(m, v, i);
      } else {
        FreeKeepsHeader(m, v, i, if k < |h| then k else k - |h| + |v.tiles| - |ReleasedTail(v.tiles, i)|);
      }
    }
  }

  /** Where the release leaves the free list. */
  lemma FreedList(v: View, i: int)
    requires ValidView(v) && 0 <= i < |v.tiles| && v.tiles[i].live
    ensures var f, h := FreeList(v), Below(v, i);
      && h < |f| && (FreeAfter(v.tiles, i) ==> h + 1 < |f|) && v.tiles[i].addr !in f
      && FreeList(v.(tiles := Released(v.tiles, i), rover := Predecessor(v, i))) ==
         f[..h] + (if FreeBefore(v.tiles, i) then [] else [v.tiles[i].addr]) +
           (if FreeAfter(v.tiles, i) then f[h + 1..] else f[h..])
  {
    hide ValidView, Contiguous, Units, LiveUnits, FreeAddrs, FreeBefore, FreeAfter, Released, ReleasedHead,
      ReleasedTail, Gained, Predecessor;
    var ts := v.tiles;
    LiveNotListed(v, i);
    assert FreeAddrs(ts) == FreeAddrs(ts[..i]) + [] + FreeAddrs(ts[i + 1..]) by {
      Tiled(v);
      SplitAt(ts, v.first, i);
    }
    assert FreeAddrs(Released(ts, i)) ==
      FreeAddrs(ts[..i]) + (if FreeBefore(ts, i) then [] else [ts[i].addr]) + FreeAddrs(ReleasedTail(ts, i)) by {
      Tiled(v);
      GainedPositive(ts, v.first, i);
      ReleasedMeasures(ts, v.first, i);
      ReleasedHeadMeasures(ts, v.first, i);
    }
    assert (FreeAfter(ts, i) ==> i + 1 < |ts|)
      && FreeAddrs(ts[i + 1..]) ==
        (if FreeAfter(ts, i) then [ts[i + 1].addr] else []) + FreeAddrs(ReleasedTail(ts, i)) by {
      Tiled(v);
      GainedPositive(ts, v.first, i);
      ReleasedTailMeasures(ts, v.first, i);
    }
    FreedSeq(FreeAddrs(ts[..i]), FreeAddrs(ts[i + 1..]), FreeAddrs(ReleasedTail(ts, i)), v.sentinel,
             if FreeBefore(ts, i) then [] else [ts[i].addr], if FreeAfter(ts, i) then [ts[i + 1].addr] else []);
  }

  /** A live block is not on the free list. */
  lemma LiveNotListed(v: View, i: int)
    requires ValidView(v) && 0 <= i < |v.tiles| && v.tiles[i].live
    ensures v.tiles[i].addr !in FreeList(v) && Below(v, i) < |FreeList(v)|
  {
    FreeListAround(v, i);
    hide *;
  }

  lemma FreedSeq(a: seq<int>, b: seq<int>, tail: seq<int>, s: int, x: seq<int>, y: seq<int>)
    requires b == y + tail
    ensures var f := a + [] + b + [s];
      && |a| + |y| < |f| && f[..|a|] == a && f[|a| + |y|..] == tail + [s]
      && a + x + tail + [s] == f[..|a|] + x + f[|a| + |y|..]
  {
    var f := a + [] + b + [s];
    assert f == a + y + (tail + [s]);
  }

  lemma FreeRing(m: seq<Unit>, v: View, i: int)
    requires Rep(m, v) && 0 <= i < |v.tiles| && v.tiles[i].live
    ensures Ring(Freeing(m, v, i), FreeList(v.(tiles := Released(v.tiles, i), rover := Predecessor(v, i))))
  {
    hide Rep, ValidView, Ring, Lists.Distinct, FreeList, Released, Below, FreeMem, FreeBefore, FreeAfter, Predecessor;
    RepRing(m, v);
    var f, h := FreeList(v), Below(v, i);
    var bp := v.tiles[i].addr;
    Neighbours(m, v, i);
    FreedList(v, i);
    FreeListDistinct(v);
    FreeListAbove(v);
    FreeMemRing(m, f, h, v.first - 2, bp);
    assert f[..h] + [] == f[..h];
  }

  lemma FreeMemRing(m: seq<Unit>, f: seq<int>, h: int, at: int, bp: int)
    requires Ring(m, f) && Lists.Distinct(f) && 0 <= h < |f| && 0 <= at
    requires forall k :: 0 <= k < |f| ==> at + 1 < f[k] < |m|
    requires at + 1 < bp < |m| && bp !in f
    requires m[f[h]].size != 0 && bp + m[bp].size == f[h] ==> h + 1 < |f|
    requires m[Before(f, h)].next == f[h]
    ensures var p, n := Before(f, h), f[h];
      var before, after := p + m[p].size == bp, m[n].size != 0 && bp + m[bp].size == n;
      Ring(FreeMem(m, at, bp, p), f[..h] + (if before then [] else [bp]) + (if after then f[h + 1..] else f[h..]))
  {
    hide Ring, Lists.Distinct, FreeMem;
    var p, n := Before(f, h), f[h];
    var before, after := p + m[p].size == bp, m[n].size != 0 && bp + m[bp].size == n;
    var m' := FreeMem(m, at, bp, p);
    assert p in f;
    assert forall k :: 0 <= k < |f| ==> f[k] in f;
    if before && after {
      assert f[..h] + [] == f[..h];
      RingRemove(m, m', f, h);
    } else if after {
      RingReplace(m, m', f, h, bp);
    } else if before {
      assert f[..h] + [] + f[h..] == f;
      RingFrame(m, m', f);
    } else {
      RingInsert(m, m', f, h, bp);
    }
  }

  lemma FreeRep(m: seq<Unit>, v: View, i: int)
    requires Rep(m, v) && 0 <= i < |v.tiles| && v.tiles[i].live
    ensures Rep(Freeing(m, v, i), v.(tiles := Released(v.tiles, i), rover := Predecessor(v, i)))
  {
    ReleasedValid(v, i);
    ReleasedMeasures(v.tiles, v.first, i);
    Neighbours(m, v, i);
    FreeHeaders(m, v, i);
    FreeRing(m, v, i);
    ContiguousBounds(v.tiles, v.first);
  }

  /** Releasing writes the count, the block's own header and the one before it on the list. */
  lemma FreeWrites(m: seq<Unit>, v: View, i: int)
    requires Rep(m, v) && 0 <= i < |v.tiles| && v.tiles[i].live
    ensures var bp := v.tiles[i].addr; Written(m, Freeing(m, v, i), v, bp) && Confined(m, Freeing(m, v, i), v, bp)
  {
    var ts, bp := v.tiles, v.tiles[i].addr;
    Neighbours(m, v, i);
    assert Predecessor(v, i) in FreeList(v);
    ContiguousBounds(ts, v.first);
    forall k | 0 <= k < |ts| && ts[k].live && ts[k].addr != bp
      ensures !(ts[k].addr <= bp < ts[k].addr + ts[k].size)
    {
      if k < i { TilesOrdered(ts, v.first, k, i); } else { TilesOrdered(ts, v.first, i, k); }
    }
    WrittenIsConfined(m, Freeing(m, v, i), v, bp, bp);
  }

  /** Every header that release writes, and any it leaves alone, links into the arena. */
  lemma FreeLinks(m: seq<Unit>, v: View, i: int, x: int)
    requires Rep(m, v) && 0 <= i < |v.tiles| && v.tiles[i].live && 0 <= x < |m|
    requires x == v.tiles[i].addr || (v.first <= x && v.first <= m[x].next <= v.sentinel)
    ensures v.first <= Freeing(m, v, i)[x].next <= v.sentinel
  {
    Neighbours(m, v, i);
    FreeListAbove(v);
    var n := FreeList(v)[Below(v, i)];
    FreeNextInside(m, v, n);
    ContiguousBounds(v.tiles, v.first);
  }

  /** Release leaves every other live block where it was. */
  lemma StillLive(v: View, i: int, k: int) returns (o: int)
    requires ValidView(v) && 0 <= i < |v.tiles| && v.tiles[i].live
    requires 0 <= k < |Released(v.tiles, i)| && Released(v.tiles, i)[k].live
    ensures 0 <= o < |v.tiles| && o != i && v.tiles[o] == Released(v.tiles, i)[k]
  {
    var h, r := ReleasedHead(v.tiles, i), ReleasedTail(v.tiles, i);
    if k < |h| {
      o := k;
    } else {
      o := k - |h| + |v.tiles| - |r|;
    }
  }

  lemma FreeStale(m: seq<Unit>, v: View, i: int, stale: set<int>)
    requires Rep(m, v) && StaleOk(m, v, stale) && 0 <= i < |v.tiles| && v.tiles[i].live
    ensures StaleOk(Freeing(m, v, i), v.(tiles := Released(v.tiles, i), rover := Predecessor(v, i)),
                    stale + {v.tiles[i].addr})
  {
    hide Rep, ValidView, Freeing, Released, Predecessor;
    RepRing(m, v);
    var m', ts, ts' := Freeing(m, v, i), v.tiles, Released(v.tiles, i);
    var bp := ts[i].addr;
    ContiguousBoundsOf(v);
    forall x | x in stale + {bp}
      ensures v.first <= x < v.sentinel && v.first <= m'[x].next <= v.sentinel
    {
      FreeLinks(m, v, i, x);
    }
    forall x, k | x in stale + {bp} && 0 <= k < |ts'| && ts'[k].live
      ensures !(ts'[k].addr <= x < ts'[k].addr + ts'[k].size)
    {
      var o := StillLive(v, i, k);
      if o < i { TilesOrdered(ts, v.first, o, i); } else { TilesOrdered(ts, v.first, i, o); }
    }
  }

  lemma ContiguousBoundsOf(v: View)
    requires ValidView(v)
    ensures Contiguous(v.tiles, v.first)
    ensures forall i :: 0 <= i < |v.tiles| ==> v.first <= v.tiles[i].addr < v.sentinel && 0 < v.tiles[i].size
  {
    ContiguousBounds(v.tiles, v.first);
  }

  // ----- one arena among others in the same memory ------------------------------------------------

  /** An arena looks the same in any memory that has its units. */
  lemma RepFrame(m: seq<Unit>, m': seq<Unit>, v: View)
    requires Rep(m, v) && |m'| == |m| && forall x {:trigger m'[x]} :: v.first - 2 <= x <= v.sentinel ==> m'[x] == m[x]
    ensures Rep(m', v)
  {
    ContiguousBounds(v.tiles, v.first);
    FreeListAbove(v);
    RingFrame(m, m', FreeList(v));
  }

  lemma StaleFrame(m: seq<Unit>, m': seq<Unit>, v: View, stale: set<int>)
    requires StaleOk(m, v, stale) && 2 <= v.first && v.sentinel < |m|
    requires |m'| == |m| && forall x {:trigger m'[x]} :: v.first - 2 <= x <= v.sentinel ==> m'[x] == m[x]
    ensures StaleOk(m', v, stale)
  {
    assert forall x :: x in stale ==> m'[x] == m[x];
  }

  /** The block handed out lies between the first block and the sentinel. */
  lemma AllocatedInside(v: View, units: int)
    requires ValidView(v) && units > 0 && Allocate(v, units).1.Some?
    ensures v.first < Allocate(v, units).1.value && Allocate(v, units).1.value - 1 + units <= v.sentinel
  {
    PickIsFree(v, units);
    ContiguousBounds(v.tiles, v.first);
  }

  /** A live block's header lies inside the arena and carries its address. */
  lemma LiveHeader(m: seq<Unit>, v: View, ptr: int)
    requires Rep(m, v) && LiveAt(v.tiles, ptr)
    ensures v.first <= ptr - 1 < v.sentinel < |m| && m[ptr - 1].next == v.first - 2 && 2 <= v.first
  {
    ContiguousBounds(v.tiles, v.first);
  }
}
