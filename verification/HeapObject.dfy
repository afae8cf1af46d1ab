/**
 HEAPLIB's growable heap in memory (src/iop/heaplib.cpp): the heap object and its chunks are blocks of one
 memory, the chunk list is linked through their first units, and every operation is proved to do to the
 views of `Heap` what its name says.
 */
module HeapObject {
  import opened Common
  import opened HeapTiles
  import opened Heap
  import A = HeapArena
  import Lists

  type Memory = seq<A.Unit>

  // ----- the chunk list -------------------------------------------------------------------------

  /** The nodes in list order: the sentinel inside the heap object, then the grown chunks. */
  ghost function Nodes(base: int, grown: seq<Chunk>): (f: seq<int>)
    ensures |f| == |grown| + 1
  {
    [base + 1] + seq(|grown|, i requires 0 <= i < |grown| => grown[i].base)
  }

  /** A node is one unit, its two words the next and the previous node, going round. */
  ghost predicate Threaded(m: Memory, f: seq<int>) {
    && (forall i :: 0 <= i < |f| ==> 0 <= f[i] < |m|)
    && (forall i {:trigger A.Next(f, i)} :: 0 <= i < |f| ==> m[f[i]] == A.Unit(A.Next(f, i), A.Before(f, i)))
  }

  /** The node at position `i` as memory has it. */
  lemma NodeAt(m: Memory, f: seq<int>, i: int)
    requires Threaded(m, f) && 0 <= i < |f|
    ensures 0 <= f[i] < |m| && m[f[i]] == A.Unit(A.Next(f, i), A.Before(f, i))
  {
  }

  lemma ThreadFrame(m: Memory, m': Memory, f: seq<int>)
    requires Threaded(m, f) && |m'| == |m| && forall i :: 0 <= i < |f| ==> m'[f[i]] == m[f[i]]
    ensures Threaded(m', f)
  {
    forall i {:trigger A.Next(f, i)} | 0 <= i < |f|
      ensures m'[f[i]] == A.Unit(A.Next(f, i), A.Before(f, i))
    {
      NodeAt(m, f, i);
    }
  }

  lemma ThreadOutside(m: Memory, m': Memory, f: seq<int>, lo: int, hi: int)
    requires Threaded(m, f) && A.SameOutside(m, m', lo, hi) && forall x :: x in f ==> !(lo <= x < hi)
    ensures Threaded(m', f)
  {
    forall k | 0 <= k < |f|
      ensures m'[f[k]] == m[f[k]]
    {
      NodeAt(m, f, k);
      assert f[k] in f;
    }
    ThreadFrame(m, m', f);
  }

  /** The three writes that put node `x` right after the sentinel. */
  ghost function LinkMem(m: Memory, s: int, x: int): (m': Memory)
    requires 0 <= s < |m| && 0 <= x < |m| && 0 <= m[s].next < |m|
    ensures |m'| == |m|
  {
    var m1 := m[x := A.Unit(m[s].next, s)];
    var first := m1[s].next;
    if 0 <= first < |m1| then
      var m2 := m1[first := m1[first].(size := x)];
      m2[s := m2[s].(next := x)]
    else m1
  }

  lemma LinkThreads(m: Memory, f: seq<int>, x: int)
    requires Threaded(m, f) && Lists.Distinct(f) && |f| > 0 && 0 <= x < |m| && x !in f
    ensures 0 <= m[f[0]].next < |m|
    ensures Threaded(LinkMem(m, f[0], x), [f[0], x] + f[1..])
    ensures forall y {:trigger LinkMem(m, f[0], x)[y]} :: 0 <= y < |m| && y !in f && y != x ==>
      LinkMem(m, f[0], x)[y] == m[y]
  {
    NodeAt(m, f, 0);
    var m', g := LinkMem(m, f[0], x), [f[0], x] + f[1..];
    assert A.Next(f, 0) in f;
    forall i {:trigger A.Next(g, i)} | 0 <= i < |g|
      ensures m'[g[i]] == A.Unit(A.Next(g, i), A.Before(g, i))
    {
      if i >= 2 { NodeAt(m, f, i - 1); }
      assert i == 0 ==> g[i] == f[0];
      assert i >= 2 ==> g[i] == f[i - 1];
    }
  }

  /** The two writes that take the node at `x` off the list. */
  ghost function UnlinkMem(m: Memory, x: int): (m': Memory)
    requires 0 <= x < |m| && 0 <= m[x].next < |m| && 0 <= m[x].size < |m|
    ensures |m'| == |m|
  {
    var p, n := m[x].size, m[x].next;
    var m1 := m[p := m[p].(next := n)];
    m1[n := m1[n].(size := p)]
  }

  lemma UnlinkThreads(m: Memory, f: seq<int>, k: int)
    requires Threaded(m, f) && Lists.Distinct(f) && 0 < k < |f|
    ensures 0 <= m[f[k]].next < |m| && 0 <= m[f[k]].size < |m|
    ensures Threaded(UnlinkMem(m, f[k]), f[..k] + f[k + 1..])
    ensures forall y {:trigger UnlinkMem(m, f[k])[y]} :: 0 <= y < |m| && y !in f ==> UnlinkMem(m, f[k])[y] == m[y]
  {
    NodeAt(m, f, k);
    assert A.Next(f, k) in f && A.Before(f, k) in f;
    var m', g := UnlinkMem(m, f[k]), f[..k] + f[k + 1..];
    forall i {:trigger A.Next(g, i)} | 0 <= i < |g|
      ensures m'[g[i]] == A.Unit(A.Next(g, i), A.Before(g, i))
    {
      hide Threaded, A.Next, A.Before;
      var o := if i < k then i else i + 1;
      NodeAt(m, f, o);
      AroundGap(f, k, i);
    }
  }

  /** The neighbours of an element of a ring once element `k` is gone. */
  lemma AroundGap(f: seq<int>, k: int, i: int)
    requires Lists.Distinct(f) && 0 < k < |f| && 0 <= i < |f| - 1
    ensures var g := f[..k] + f[k + 1..]; var o := if i < k then i else i + 1;
      && g[i] == f[o]
      && A.Next(g, i) == (if f[o] == A.Before(f, k) then A.Next(f, k) else A.Next(f, o))
      && A.Before(g, i) == (if f[o] == A.Next(f, k) then A.Before(f, k) else A.Before(f, o))
  {
    var g := f[..k] + f[k + 1..];
    assert forall j :: 0 <= j < |g| ==> g[j] == f[if j < k then j else j + 1];
  }

  // ----- the heap in memory -----------------------------------------------------------------------

  /** The stale headers that lie in one arena. */
  ghost function Within(stale: set<int>, v: View): set<int> {
    set x | x in stale && v.first <= x < v.sentinel
  }

  ghost predicate ArenaRep(m: Memory, v: View, stale: set<int>) {
    A.Rep(m, v) && A.StaleOk(m, v, Within(stale, v))
  }

  /** A grown chunk's arena ends where the chunk does. */
  ghost predicate ChunkRep(m: Memory, c: Chunk, stale: set<int>) {
    && ArenaRep(m, c.view, stale) && 0 < c.base && c.view.first == c.base + 3
    && 8 * (c.base + 1) + m[c.base + 1].size == 8 * (c.view.sentinel + 1)
  }

  /** The home arena, or memory that carries no arena tag. */
  ghost predicate HomeRep(m: Memory, h: State, stale: set<int>) {
    && 0 < h.base && h.base + 4 <= h.top <= |m|
    && if h.home.None? then !A.Prepared(m, h.base + 2)
       else
         && ArenaRep(m, h.home.value, stale) && h.home.value.first == h.base + 4 && h.home.value.sentinel < h.top
         && 8 * (h.base + 2) + m[h.base + 2].size <= 8 * h.top
  }

  /** `m` holds the heap `h`; `stale` are the headers of blocks freed and not issued again. */
  ghost predicate HeapRep(m: Memory, h: State, stale: set<int>) {
    && ValidState(h) && HomeRep(m, h, stale)
    && Threaded(m, Nodes(h.base, h.grown))
    && forall i :: 0 <= i < |h.grown| ==> ChunkRep(m, h.grown[i], stale)
  }

  /** Nothing changes between two ends. */
  ghost predicate SameBetween(m: Memory, m': Memory, lo: int, hi: int) {
    |m'| == |m| && forall x {:trigger m'[x]} :: 0 <= x < |m| && lo <= x <= hi ==> m'[x] == m[x]
  }

  lemma ArenaFrame(m: Memory, m': Memory, v: View, stale: set<int>, stale': set<int>)
    requires ArenaRep(m, v, stale) && SameBetween(m, m', v.first - 2, v.sentinel)
    requires Within(stale, v) == Within(stale', v)
    ensures ArenaRep(m', v, stale')
  {
    A.RepRing(m, v);
    A.RepFrame(m, m', v);
    A.StaleFrame(m, m', v, Within(stale, v));
  }

  lemma ChunkFrame(m: Memory, m': Memory, c: Chunk, stale: set<int>, stale': set<int>)
    requires ChunkRep(m, c, stale) && SameBetween(m, m', c.base + 1, c.view.sentinel)
    requires Within(stale, c.view) == Within(stale', c.view)
    ensures ChunkRep(m', c, stale')
  {
    ArenaFrame(m, m', c.view, stale, stale');
  }

  lemma HomeFrame(m: Memory, m': Memory, h: State, h': State, stale: set<int>, stale': set<int>)
    requires HomeRep(m, h, stale) && SameBetween(m, m', h.base + 2, h.top - 1)
    requires h'.base == h.base && h'.top == h.top && h'.home == h.home
    requires h.home.Some? ==> Within(stale, h.home.value) == Within(stale', h.home.value)
    ensures HomeRep(m', h', stale')
  {
    if h.home.Some? {
      hide ArenaRep, Within;
      ArenaFrame(m, m', h.home.value, stale, stale');
    }
  }

  /** The nodes are different places, none inside any arena. */
  lemma NodesApart(h: State)
    requires ValidState(h)
    ensures Lists.Distinct(Nodes(h.base, h.grown))
    ensures forall x :: x in Nodes(h.base, h.grown) ==> x > 0 && (x == h.base + 1 || x < h.base || h.top <= x)
    ensures forall i, x :: 0 <= i < |h.grown| && x in Nodes(h.base, h.grown) ==>
      x <= h.grown[i].base || h.grown[i].view.sentinel < x
  {
    hide ValidView;
    var f := Nodes(h.base, h.grown);
    assert f[0] == h.base + 1;
    forall i, j | 0 <= i < j < |f|
      ensures f[i] != f[j]
    {
      ChunkEnds(h, j - 1);
      if i == 0 {
        assert OffHome(h, h.grown[j - 1]);
      } else {
        ChunkEnds(h, i - 1);
        assert Apart(h.grown[i - 1], h.grown[j - 1]);
      }
    }
    forall k | 0 <= k < |f|
      ensures f[k] > 0 && (f[k] == h.base + 1 || f[k] < h.base || h.top <= f[k])
      ensures forall i :: 0 <= i < |h.grown| ==> f[k] <= h.grown[i].base || h.grown[i].view.sentinel < f[k]
    {
      if k > 0 { ChunkEnds(h, k - 1); }
      forall i | 0 <= i < |h.grown|
        ensures f[k] <= h.grown[i].base || h.grown[i].view.sentinel < f[k]
      {
        ChunkEnds(h, i);
        NodeOutside(h, k, i);
      }
    }
  }

  lemma ChunkEnds(h: State, i: int)
    requires ValidState(h) && 0 <= i < |h.grown|
    ensures 0 < h.grown[i].base && h.grown[i].view.first == h.grown[i].base + 3
    ensures h.grown[i].view.first < h.grown[i].view.sentinel
    ensures OffHome(h, h.grown[i]) && ValidView(h.grown[i].view)
  {
    assert ValidChunk(h.grown[i]);
  }

  lemma ApartAt(h: State, i: int, j: int)
    requires ValidState(h) && 0 <= i < |h.grown| && 0 <= j < |h.grown| && i != j
    ensures Apart(h.grown[i], h.grown[j])
  {
    if i < j { assert Apart(h.grown[i], h.grown[j]); } else { assert Apart(h.grown[j], h.grown[i]); }
  }

  lemma NodeOutside(h: State, k: int, i: int)
    requires ValidState(h) && 0 <= k <= |h.grown| && 0 <= i < |h.grown|
    ensures var x := Nodes(h.base, h.grown)[k]; x <= h.grown[i].base || h.grown[i].view.sentinel < x
  {
    hide ValidState, ValidView;
    ChunkEnds(h, i);
    if k > 0 && k - 1 != i {
      ChunkEnds(h, k - 1);
      ApartAt(h, k - 1, i);
    } else if k == 0 {
      HomeEnds(h);
    }
  }

  lemma HomeEnds(h: State)
    requires ValidState(h)
    ensures 0 < h.base && h.base + 4 <= h.top
    ensures h.home.Some? ==>
      ValidView(h.home.value) && h.home.value.first == h.base + 4 && h.home.value.sentinel < h.top
  {
  }

  // ----- a step in one arena ------------------------------------------------------------------------

  /** Two sets of stale headers that differ at most inside one arena. */
  ghost predicate SameStale(stale: set<int>, stale': set<int>, v: View) {
    forall x :: !(v.first <= x < v.sentinel) ==> (x in stale <==> x in stale')
  }

  lemma SameWithin(stale: set<int>, stale': set<int>, v: View, w: View)
    requires SameStale(stale, stale', v) && (v.sentinel <= w.first || w.sentinel <= v.first)
    ensures Within(stale, w) == Within(stale', w)
  {
    assert forall x :: w.first <= x < w.sentinel ==> (x in stale <==> x in stale');
  }

  /** The other arenas, and the nodes, see nothing of a step confined to a grown chunk's arena. */
  lemma ChunkStep(m: Memory, m': Memory, h: State, i: int, w: View, stale: set<int>, stale': set<int>)
    requires HeapRep(m, h, stale) && 0 <= i < |h.grown|
    requires var v := h.grown[i].view;
      && A.SameOutside(m, m', v.first - 1, v.sentinel + 1) && SameStale(stale, stale', v)
      && w.first == v.first && w.sentinel == v.sentinel && ArenaRep(m', w, stale')
    ensures HeapRep(m', h.(grown := h.grown[i := h.grown[i].(view := w)]), stale')
  {
    hide ValidState, HomeRep, Threaded, ChunkRep, Within, SameStale, ArenaRep, Nodes;
    var c, v := h.grown[i], h.grown[i].view;
    var h' := h.(grown := h.grown[i := c.(view := w)]);
    ArenaIsValid(m', w, stale');
    ChunkEnds(h, i);
    HomeEnds(h);
    ChunkReplaced(h, i, w);
    NodesKept(m, m', h, i, w);
    if h.home.Some? { SameWithin(stale, stale', v, h.home.value); }
    HomeFrame(m, m', h, h', stale, stale');
    forall k | 0 <= k < |h.grown|
      ensures ChunkRep(m', h'.grown[k], stale')
    {
      assert ChunkRep(m, h.grown[k], stale);
      if k == i {
        ChunkIn(m, m', c, w, stale, stale');
      } else {
        ApartAt(h, i, k);
        ChunkEnds(h, k);
        SameWithin(stale, stale', v, h.grown[k].view);
        ChunkFrame(m, m', h.grown[k], stale, stale');
      }
    }
  }

  lemma ArenaIsValid(m: Memory, v: View, stale: set<int>)
    requires ArenaRep(m, v, stale)
    ensures ValidView(v) && A.Rep(m, v) && 2 <= v.first && v.sentinel < |m| && A.StaleOk(m, v, Within(stale, v))
  {
  }

  lemma ChunkIn(m: Memory, m': Memory, c: Chunk, w: View, stale: set<int>, stale': set<int>)
    requires ChunkRep(m, c, stale) && ArenaRep(m', w, stale')
    requires A.SameOutside(m, m', c.view.first - 1, c.view.sentinel + 1)
    requires w.first == c.view.first && w.sentinel == c.view.sentinel
    ensures ChunkRep(m', c.(view := w), stale')
  {
  }

  lemma NodesKept(m: Memory, m': Memory, h: State, i: int, w: View)
    requires ValidState(h) && 0 <= i < |h.grown| && Threaded(m, Nodes(h.base, h.grown))
    requires A.SameOutside(m, m', h.grown[i].view.first - 1, h.grown[i].view.sentinel + 1)
    ensures Threaded(m', Nodes(h.base, h.grown[i := h.grown[i].(view := w)]))
  {
    var f := Nodes(h.base, h.grown);
    NodesApart(h);
    ChunkEnds(h, i);
    hide ValidState, Nodes;
    ThreadOutside(m, m', f, h.grown[i].view.first - 1, h.grown[i].view.sentinel + 1);
    SameNodes(h.base, h.grown, i, w);
  }

  lemma SameNodes(base: int, grown: seq<Chunk>, i: int, w: View)
    requires 0 <= i < |grown|
    ensures Nodes(base, grown[i := grown[i].(view := w)]) == Nodes(base, grown)
  {
  }

  /** The grown chunks, and the nodes, see nothing of a step confined to the home arena. */
  lemma HomeStep(m: Memory, m': Memory, h: State, w: View, stale: set<int>, stale': set<int>)
    requires HeapRep(m, h, stale) && h.home.Some?
    requires var v := h.home.value;
      && A.SameOutside(m, m', v.first - 1, v.sentinel + 1) && SameStale(stale, stale', v)
      && w.first == v.first && w.sentinel == v.sentinel && ArenaRep(m', w, stale')
    ensures HeapRep(m', h.(home := Some(w)), stale')
  {
    hide ValidState, Threaded, ChunkRep, Within, SameStale, ArenaRep, Nodes;
    var v, f := h.home.value, Nodes(h.base, h.grown);
    var h' := h.(home := Some(w));
    ArenaIsValid(m', w, stale');
    HomeEnds(h);
    HomeReplaced(h, w);
    NodesApart(h);
    ThreadOutside(m, m', f, v.first - 1, v.sentinel + 1);
    forall k | 0 <= k < |h.grown|
      ensures ChunkRep(m', h'.grown[k], stale')
    {
      ChunkEnds(h, k);
      SameWithin(stale, stale', v, h.grown[k].view);
      ChunkFrame(m, m', h.grown[k], stale, stale');
    }
  }

  // ----- what a client sees -----------------------------------------------------------------------

  /** The live blocks of one arena, but the one whose header is at `hdr`, are as they were, header and all. */
  ghost predicate Kept(m: Memory, m': Memory, v: View, hdr: int) {
    forall k :: 0 <= k < |v.tiles| && v.tiles[k].live && v.tiles[k].addr != hdr ==> A.SameTile(m, m', v.tiles[k])
  }

  ghost predicate KeepsBlocks(m: Memory, m': Memory, h: State, hdr: int) {
    && (forall i :: 0 <= i < |h.grown| ==> Kept(m, m', h.grown[i].view, hdr))
    && (h.home.Some? ==> Kept(m, m', h.home.value, hdr))
  }

  /** A unit of the heap object's block or of a grown chunk. */
  ghost predicate Owns(h: State, x: int) {
    h.base <= x < h.top || exists i :: 0 <= i < |h.grown| && h.grown[i].base <= x <= h.grown[i].view.sentinel
  }

  /** Memory outside the heap, and outside the block just granted, is as it was. */
  ghost predicate KeepsRest(m: Memory, m': Memory, h: State, grant: Option<Grant>) {
    |m'| == |m| && forall x {:trigger m'[x]} :: 0 <= x < |m| && !Owns(h, x) && !Granted(grant, x) ==> m'[x] == m[x]
  }

  predicate Granted(grant: Option<Grant>, x: int) {
    grant.Some? && grant.value.base <= x < grant.value.base + grant.value.bytes / 8
  }

  lemma TilesInside(v: View, k: int)
    requires ValidView(v) && 0 <= k < |v.tiles|
    ensures v.first <= v.tiles[k].addr && v.tiles[k].addr + v.tiles[k].size <= v.sentinel
  {
    ContiguousBounds(v.tiles, v.first);
  }

  /** What is written outside an arena's blocks leaves them. */
  lemma OutsideKept(m: Memory, m': Memory, v: View, hdr: int)
    requires ValidView(v) && |m'| == |m|
    requires forall x {:trigger m'[x]} :: 0 <= x < |m| && v.first <= x < v.sentinel ==> m'[x] == m[x]
    ensures Kept(m, m', v, hdr)
  {
    forall k | 0 <= k < |v.tiles|
      ensures A.SameTile(m, m', v.tiles[k])
    {
      TilesInside(v, k);
    }
  }

  lemma ConfinedToChunk(m: Memory, m': Memory, h: State, i: int, hdr: int)
    requires ValidState(h) && 0 <= i < |h.grown| && A.Confined(m, m', h.grown[i].view, hdr)
    ensures KeepsBlocks(m, m', h, hdr) && KeepsRest(m, m', h, None)
  {
    hide ValidState, ValidView;
    var v := h.grown[i].view;
    ChunkEnds(h, i);
    HomeEnds(h);
    forall j | 0 <= j < |h.grown|
      ensures Kept(m, m', h.grown[j].view, hdr)
    {
      if j != i {
        ApartAt(h, i, j);
        ChunkEnds(h, j);
        OutsideKept(m, m', h.grown[j].view, hdr);
      }
    }
    if h.home.Some? { OutsideKept(m, m', h.home.value, hdr); }
  }

  lemma ConfinedToHome(m: Memory, m': Memory, h: State, hdr: int)
    requires ValidState(h) && h.home.Some? && A.Confined(m, m', h.home.value, hdr)
    ensures KeepsBlocks(m, m', h, hdr) && KeepsRest(m, m', h, None)
  {
    hide ValidState, ValidView;
    HomeEnds(h);
    forall j | 0 <= j < |h.grown|
      ensures Kept(m, m', h.grown[j].view, hdr)
    {
      ChunkEnds(h, j);
      OutsideKept(m, m', h.grown[j].view, hdr);
    }
  }

  lemma KeptNow(m: Memory, h: State, hdr: int, grant: Option<Grant>)
    ensures KeepsBlocks(m, m, h, hdr) && KeepsRest(m, m, h, grant)
  {
  }

  // ----- allocation -----------------------------------------------------------------------------------

  /** An allocation in a grown chunk's arena, carried to the heap. */
  lemma ServedByChunk(m: Memory, m': Memory, h: State, i: int, units: int, stale: set<int>)
    requires HeapRep(m, h, stale) && 0 <= i < |h.grown| && units > 0
    requires var v := h.grown[i].view; var (w, r) := Allocate(v, units);
      && r.Some? && A.Rep(m', w) && A.StaleOk(m', w, A.Unissued(Within(stale, v), r.value - 1, units))
      && A.Confined(m, m', v, 0)
    ensures var v := h.grown[i].view; var (w, r) := Allocate(v, units);
      && HeapRep(m', h.(grown := h.grown[i := h.grown[i].(view := w)]), A.Unissued(stale, r.value - 1, units))
      && KeepsBlocks(m, m', h, 0) && KeepsRest(m, m', h, None)
  {
    hide Allocate, ValidState, HeapRep, ValidView, A.Rep, A.StaleOk, A.Unissued, Within, A.Confined, SameStale;
    var v := h.grown[i].view;
    var (w, r) := Allocate(v, units);
    HeapParts(m, h, stale);
    ChunkEnds(h, i);
    ServedIn(v, units, stale);
    ConfinedOutside(m, m', v, 0);
    ChunkStep(m, m', h, i, w, stale, A.Unissued(stale, r.value - 1, units));
    ConfinedToChunk(m, m', h, i, 0);
  }

  lemma ServedByHome(m: Memory, m': Memory, h: State, units: int, stale: set<int>)
    requires HeapRep(m, h, stale) && h.home.Some? && units > 0
    requires var v := h.home.value; var (w, r) := Allocate(v, units);
      && r.Some? && A.Rep(m', w) && A.StaleOk(m', w, A.Unissued(Within(stale, v), r.value - 1, units))
      && A.Confined(m, m', v, 0)
    ensures var v := h.home.value; var (w, r) := Allocate(v, units);
      && HeapRep(m', h.(home := Some(w)), A.Unissued(stale, r.value - 1, units))
      && KeepsBlocks(m, m', h, 0) && KeepsRest(m, m', h, None)
  {
    hide Allocate, ValidState, HeapRep, ValidView, A.Rep, A.StaleOk, A.Unissued, Within, A.Confined, SameStale;
    var v := h.home.value;
    var (w, r) := Allocate(v, units);
    HeapParts(m, h, stale);
    HomeEnds(h);
    ServedIn(v, units, stale);
    ConfinedOutside(m, m', v, 0);
    HomeStep(m, m', h, w, stale, A.Unissued(stale, r.value - 1, units));
    ConfinedToHome(m, m', h, 0);
  }

  /**
   What an allocation leaves of the arena's bounds and of the stale headers, seen from the arena and from the heap.
   */
  lemma ServedIn(v: View, units: int, stale: set<int>)
    requires ValidView(v) && units > 0 && Allocate(v, units).1.Some?
    ensures var (w, r) := Allocate(v, units); var stale' := A.Unissued(stale, r.value - 1, units);
      && w.first == v.first && w.sentinel == v.sentinel
      && Within(stale', w) == A.Unissued(Within(stale, v), r.value - 1, units) && SameStale(stale, stale', v)
  {
    A.AllocatedInside(v, units);
    AllocateFacts(v, units);
    hide Allocate, ValidView;
    var (w, r) := Allocate(v, units);
    assert Within(A.Unissued(stale, r.value - 1, units), w) == A.Unissued(Within(stale, v), r.value - 1, units);
  }

  lemma ReleasedIn(v: View, ptr: int, stale: set<int>)
    requires ValidView(v) && LiveAt(v.tiles, ptr) && v.first <= ptr - 1 < v.sentinel
    ensures var w, stale' := Release(v, ptr), stale + {ptr - 1};
      && w.first == v.first && w.sentinel == v.sentinel
      && Within(stale', w) == Within(stale, v) + {ptr - 1} && SameStale(stale, stale', v)
  {
    ReleaseFacts(v, ptr);
    hide Release, ValidView, LiveAt;
    assert Within(stale + {ptr - 1}, Release(v, ptr)) == Within(stale, v) + {ptr - 1};
  }

  lemma ConfinedOutside(m: Memory, m': Memory, v: View, hdr: int)
    requires A.Confined(m, m', v, hdr)
    ensures A.SameOutside(m, m', v.first - 1, v.sentinel + 1)
  {
  }

  lemma HeapParts(m: Memory, h: State, stale: set<int>)
    requires HeapRep(m, h, stale)
    ensures ValidState(h) && HomeRep(m, h, stale) && Threaded(m, Nodes(h.base, h.grown))
    ensures forall i :: 0 <= i < |h.grown| ==> ChunkRep(m, h.grown[i], stale)
  {
  }

  /** Where a granted block puts its chunk. */
  lemma NewChunkEnds(h: State, size: int, g: Grant)
    requires GrantOk(h, size, g)
    ensures var c := NewChunk(g);
      && c.base == g.base > 0 && c.view.first == g.base + 3 && c.view.sentinel == g.base + g.bytes / 8 - 1
      && ValidChunk(c) && OffHome(h, c) && g.bytes >= 0x100 && g.bytes % 0x100 == 0
      && (forall d :: d in h.grown ==> c.view.sentinel < d.base || d.view.sentinel < c.base)
  {
    FreshValid(g.base + 3, (g.bytes - 8 - 0x10) / 8 - 1);
  }

  /** A granted block has no unit of the heap's in it. */
  lemma NotGranted(h: State, size: int, g: Grant, k: int)
    requires ValidState(h) && GrantOk(h, size, g) && 0 <= k < |h.grown|
    ensures forall x :: h.grown[k].base <= x <= h.grown[k].view.sentinel ==> !Granted(Some(g), x)
    ensures h.grown[k].view.sentinel < g.base || g.base + g.bytes / 8 <= h.grown[k].base
  {
    assert h.grown[k] in h.grown;
  }

  lemma HomeNotGranted(h: State, size: int, g: Grant)
    requires GrantOk(h, size, g)
    ensures forall x :: h.base <= x < h.top ==> !Granted(Some(g), x)
  {
  }

  lemma NodeOwned(h: State, x: int)
    requires ValidState(h) && x in Nodes(h.base, h.grown)
    ensures Owns(h, x)
  {
    hide ValidView;
    HomeEnds(h);
    var f := Nodes(h.base, h.grown);
    var k :| 0 <= k < |f| && f[k] == x;
    if k > 0 { ChunkEnds(h, k - 1); }
  }

  lemma NewNode(h: State, size: int, g: Grant)
    requires ValidState(h) && GrantOk(h, size, g)
    ensures forall x :: x in Nodes(h.base, h.grown) ==> !Granted(Some(g), x)
    ensures g.base !in Nodes(h.base, h.grown)
  {
    hide ValidView;
    HomeNotGranted(h, size, g);
    HomeEnds(h);
    NewChunkEnds(h, size, g);
    forall x | x in Nodes(h.base, h.grown)
      ensures !Granted(Some(g), x)
    {
      NodeOwned(h, x);
      if !(h.base <= x < h.top) {
        var i :| 0 <= i < |h.grown| && h.grown[i].base <= x <= h.grown[i].view.sentinel;
        NotGranted(h, size, g, i);
      }
    }
    assert Granted(Some(g), g.base);
  }

  lemma NodesPlus(base: int, grown: seq<Chunk>, c: Chunk)
    ensures var f := Nodes(base, grown); Nodes(base, [c] + grown) == [f[0], c.base] + f[1..]
  {
  }

  /** Memory as it was but for the list's nodes and the block granted. */
  ghost predicate OnlyGrew(m: Memory, m': Memory, f: seq<int>, g: Grant) {
    |m'| == |m| && forall x {:trigger m'[x]} :: 0 <= x < |m| && x !in f && !Granted(Some(g), x) ==> m'[x] == m[x]
  }

  ghost function Reclaimed(stale: set<int>, g: Grant): set<int> {
    set x | x in stale && !Granted(Some(g), x)
  }

  lemma HomeSeesNone(m: Memory, m': Memory, h: State, h': State, size: int, g: Grant, stale: set<int>)
    requires ValidState(h) && GrantOk(h, size, g) && HomeRep(m, h, stale) && OnlyGrew(m, m', Nodes(h.base, h.grown), g)
    requires h'.base == h.base && h'.top == h.top && h'.home == h.home
    ensures HomeRep(m', h', Reclaimed(stale, g))
  {
    HomeNotGranted(h, size, g);
    HomeEnds(h);
    NodesApart(h);
    hide ValidState, GrantOk, Nodes, Granted, HomeRep;
    assert h.home.Some? ==> Within(stale, h.home.value) == Within(Reclaimed(stale, g), h.home.value);
    assert SameBetween(m, m', h.base + 2, h.top - 1);
    HomeFrame(m, m', h, h', stale, Reclaimed(stale, g));
  }

  lemma ChunkSeesNone(m: Memory, m': Memory, h: State, k: int, size: int, g: Grant, stale: set<int>)
    requires ValidState(h) && GrantOk(h, size, g) && 0 <= k < |h.grown| && ChunkRep(m, h.grown[k], stale)
    requires OnlyGrew(m, m', Nodes(h.base, h.grown), g)
    ensures ChunkRep(m', h.grown[k], Reclaimed(stale, g)) && Kept(m, m', h.grown[k].view, 0)
  {
    var c := h.grown[k];
    NotGranted(h, size, g, k);
    ChunkEnds(h, k);
    NodesApart(h);
    hide ValidState, GrantOk, Nodes, Granted, ChunkRep, ValidView;
    assert Within(stale, c.view) == Within(Reclaimed(stale, g), c.view);
    assert SameBetween(m, m', c.base + 1, c.view.sentinel);
    ChunkFrame(m, m', c, stale, Reclaimed(stale, g));
    OutsideKept(m, m', c.view, 0);
  }

  lemma NewChunkRep(m: Memory, g: Grant, stale: set<int>)
    requires g.base > 0 && g.bytes >= 0x100 && g.bytes % 0x100 == 0 && g.base + g.bytes / 8 <= |m|
    requires m[g.base + 1].size == g.bytes - 8 && A.Rep(m, NewChunk(g).view) && A.StaleOk(m, NewChunk(g).view, {})
    ensures ChunkRep(m, NewChunk(g), Reclaimed(stale, g))
  {
    hide A.Rep, A.StaleOk;
    assert Within(Reclaimed(stale, g), NewChunk(g).view) == {};
  }

  /** A granted block linked in and prepared is a grown chunk with one free block. */
  lemma Grown(m: Memory, m1: Memory, m2: Memory, h: State, size: int, g: Grant, stale: set<int>)
    requires HeapRep(m, h, stale) && GrantOk(h, size, g) && g.base + g.bytes / 8 <= |m|
    requires 0 <= h.base + 1 < |m| && 0 <= m[h.base + 1].next < |m| && m1 == LinkMem(m, h.base + 1, g.base)
    requires A.SameOutside(m1, m2, g.base + 1, g.base + g.bytes / 8)
    requires m2[g.base + 1].size == g.bytes - 8 && A.Rep(m2, NewChunk(g).view) && A.StaleOk(m2, NewChunk(g).view, {})
    ensures HeapRep(m2, h.(grown := [NewChunk(g)] + h.grown, granted := h.granted + multiset{g.base}),
      Reclaimed(stale, g))
    ensures KeepsBlocks(m, m2, h, 0) && KeepsRest(m, m2, h, Some(g))
  {
    hide HeapRep, ValidState, ValidView, Nodes, Threaded, HomeRep, ChunkRep, LinkMem, A.Rep, A.StaleOk, GrantOk,
      NewChunk, Reclaimed;
    var c, f := NewChunk(g), Nodes(h.base, h.grown);
    var h' := h.(grown := [c] + h.grown, granted := h.granted + multiset{g.base});
    HeapParts(m, h, stale);
    NewChunkEnds(h, size, g);
    FirstNode(h);
    GrownThread(m, m1, m2, h, size, g);
    ChunkAdded(h, c);
    NodesPlus(h.base, h.grown, c);
    NewChunkRep(m2, g, stale);
    HomeSeesNone(m, m2, h, h', size, g, stale);
    forall k | 0 <= k < |h.grown|
      ensures ChunkRep(m2, h.grown[k], Reclaimed(stale, g)) && Kept(m, m2, h.grown[k].view, 0)
    {
      ChunkSeesNone(m, m2, h, k, size, g, stale);
    }
    HeapOf(m2, h', Reclaimed(stale, g));
    GrownKeeps(m, m2, h, size, g);
  }

  lemma GrownKeeps(m: Memory, m2: Memory, h: State, size: int, g: Grant)
    requires ValidState(h) && GrantOk(h, size, g) && OnlyGrew(m, m2, Nodes(h.base, h.grown), g)
    ensures KeepsRest(m, m2, h, Some(g)) && (h.home.Some? ==> Kept(m, m2, h.home.value, 0))
  {
    hide ValidState, ValidView, GrantOk;
    HomeEnds(h);
    HomeNotGranted(h, size, g);
    NodesApart(h);
    if h.home.Some? { OutsideKept(m, m2, h.home.value, 0); }
    forall x {:trigger m2[x]} | 0 <= x < |m| && !Owns(h, x) && !Granted(Some(g), x)
      ensures m2[x] == m[x]
    {
      if x in Nodes(h.base, h.grown) { NodeOwned(h, x); }
    }
  }

  lemma GrownThread(m: Memory, m1: Memory, m2: Memory, h: State, size: int, g: Grant)
    requires ValidState(h) && Threaded(m, Nodes(h.base, h.grown)) && GrantOk(h, size, g) && g.base + g.bytes / 8 <= |m|
    requires 0 <= h.base + 1 < |m| && 0 <= m[h.base + 1].next < |m| && m1 == LinkMem(m, h.base + 1, g.base)
    requires A.SameOutside(m1, m2, g.base + 1, g.base + g.bytes / 8)
    ensures var f := Nodes(h.base, h.grown);
      f[0] == h.base + 1 && Threaded(m2, [f[0], g.base] + f[1..]) && OnlyGrew(m, m2, f, g)
  {
    var f := Nodes(h.base, h.grown);
    NewChunkEnds(h, size, g);
    NodesApart(h);
    NewNode(h, size, g);
    FirstNode(h);
    LinkThreads(m, f, g.base);
    hide ValidState, Nodes, Threaded, LinkMem, GrantOk;
    GrewOnly(m, m1, m2, f, g);
    NewThread(m1, m2, f, g);
  }

  lemma FirstNode(h: State)
    ensures |Nodes(h.base, h.grown)| > 0 && Nodes(h.base, h.grown)[0] == h.base + 1
  {
  }

  lemma GrewOnly(m: Memory, m1: Memory, m2: Memory, f: seq<int>, g: Grant)
    requires |m1| == |m| && A.SameOutside(m1, m2, g.base + 1, g.base + g.bytes / 8)
    requires forall y {:trigger m1[y]} :: 0 <= y < |m| && y !in f && y != g.base ==> m1[y] == m[y]
    requires g.bytes >= 8
    ensures OnlyGrew(m, m2, f, g)
  {
  }

  lemma NewThread(m1: Memory, m2: Memory, f: seq<int>, g: Grant)
    requires |f| > 0 && Threaded(m1, [f[0], g.base] + f[1..]) && A.SameOutside(m1, m2, g.base + 1, g.base + g.bytes / 8)
    requires forall x :: x in f ==> !Granted(Some(g), x)
    ensures Threaded(m2, [f[0], g.base] + f[1..])
  {
    var n := [f[0], g.base] + f[1..];
    forall x | x in n
      ensures !(g.base + 1 <= x < g.base + g.bytes / 8)
    {
      assert x == g.base || x in f;
    }
    ThreadOutside(m1, m2, n, g.base + 1, g.base + g.bytes / 8);
  }

  lemma HeapOf(m: Memory, h: State, stale: set<int>)
    requires ValidState(h) && HomeRep(m, h, stale) && Threaded(m, Nodes(h.base, h.grown))
    requires forall i :: 0 <= i < |h.grown| ==> ChunkRep(m, h.grown[i], stale)
    ensures HeapRep(m, h, stale)
  {
  }

  /** The view of the arena behind node `i`: a grown chunk's, or at the sentinel the home arena's. */
  ghost function ViewAt(h: State, i: int): View
    requires 0 <= i <= |h.grown|
  {
    if i < |h.grown| then h.grown[i].view else if h.home.Some? then h.home.value else View(0, 0, [], 0)
  }

  /** What memory shows at the `i`th node of the walk, the sentinel last. */
  lemma AtNode(m: Memory, h: State, stale: set<int>, i: int)
    requires HeapRep(m, h, stale) && 0 <= i <= |h.grown|
    ensures var node := if i < |h.grown| then h.grown[i].base else h.base + 1; var v := ViewAt(h, i);
      && 0 < node && node + 2 < |m|
      && (A.Prepared(m, node + 1) <==> i < |h.grown| || h.home.Some?)
      && (A.Prepared(m, node + 1) ==> v.first == node + 3 && A.Rep(m, v) && A.StaleOk(m, v, Within(stale, v)))
      && (i < |h.grown| ==> m[node].next == if i + 1 < |h.grown| then h.grown[i + 1].base else h.base + 1)
  {
    hide ValidState;
    HeapParts(m, h, stale);
    HomeEnds(h);
    if i < |h.grown| {
      NodeAt(m, Nodes(h.base, h.grown), i + 1);
      ArenaIsValid(m, h.grown[i].view, stale);
    }
  }

  /** The sentinel leads to the newest chunk. */
  lemma AtSentinel(m: Memory, h: State, stale: set<int>)
    requires HeapRep(m, h, stale)
    ensures 0 < h.base + 1 < |m| - 1
    ensures m[h.base + 1].next == if |h.grown| > 0 then h.grown[0].base else h.base + 1
    ensures 0 < m[h.base + 1].next < |m|
  {
    HeapParts(m, h, stale);
    HomeEnds(h);
    NodeAt(m, Nodes(h.base, h.grown), 0);
    if |h.grown| > 0 { NodeAt(m, Nodes(h.base, h.grown), 1); }
  }

  /** Of the freed blocks' headers only those in the block just issued, or in the chunk just granted, are forgotten. */
  ghost predicate Forgets(stale: set<int>, stale': set<int>, r: Option<int>, units: int, grant: Option<Grant>) {
    stale' <= stale
    && forall x :: x in stale && x !in stale' ==>
      (r.Some? && r.value - 1 <= x < r.value - 1 + units) || Granted(grant, x)
  }

  /** allocHeapMemory: the newest chunk first, the home arena last, and then a chunk of its own. */
  method AllocOver(m0: Memory, base: int, growth: int, size: int, grant: Option<Grant>, ghost h: State,
                   ghost stale: set<int>)
    returns (m: Memory, r: Option<int>, taken: Option<int>, ghost stale': set<int>)
    requires HeapRep(m0, h, stale) && base == h.base && growth == h.growth && 0 <= size < WORD
    requires grant.Some? ==> GrantOk(h, size, grant.value) && grant.value.base + grant.value.bytes / 8 <= |m0|
    ensures HeapRep(m, AllocHeap(h, size, grant).0, stale') && r == AllocHeap(h, size, grant).1
    ensures AllocHeap(h, size, grant).0.granted == h.granted + if taken.Some? then multiset{taken.value} else multiset{}
    ensures KeepsBlocks(m0, m, h, 0) && KeepsRest(m0, m, h, if taken.Some? then grant else None)
    ensures Forgets(stale, stale', r, UnitsFor(size), if taken.Some? then grant else None)
  {
    hide HeapRep, ValidState, Allocate, KeepsBlocks, KeepsRest, Within, A.Rep, A.StaleOk, A.Confined, A.Written,
      GrantOk, UnitsFor;
    ghost var units := UnitsFor(size);
    UnitsPositive(size);
    KeptNow(m0, h, 0, None);
    HeapParts(m0, h, stale);
    ServingFirst(h.grown, units);
    AtSentinel(m0, h, stale);
    m, r, taken, stale' := m0, None, None, stale;
    var node := m[base + 1].next;
    ghost var i := 0;
    while true
      invariant 0 <= i <= |h.grown| && node == if i < |h.grown| then h.grown[i].base else base + 1
      invariant forall k :: 0 <= k < i ==> Allocate(h.grown[k].view, units).1.None?
      decreases |h.grown| - i
    {
      AtNode(m0, h, stale, i);
      ghost var v := ViewAt(h, i);
      var after, answer := A.AllocIn(m0, node + 1, size, v, Within(stale, v));
      if answer.Some? {
        stale' := A.Unissued(stale, answer.value - 1, units);
        if i < |h.grown| {
          ServedByChunk(m0, after, h, i, units, stale);
        } else {
          ServedByHome(m0, after, h, units, stale);
        }
        return after, answer, None, stale';
      }
      if node == base + 1 { break; }
      SentinelIsLast(h, i);
      node := m0[node].next;
      i := i + 1;
    }
    SentinelIsLast(h, i);
    if growth == 0 { return; }
    if grant.None? { return; }
    m, r, stale' := GrowOver(m0, base, size, grant.value, h, stale);
    taken := Some(grant.value.base);
  }

  /** Only the last node of the walk is the sentinel. */
  lemma SentinelIsLast(h: State, i: int)
    requires ValidState(h) && 0 <= i <= |h.grown|
    ensures i < |h.grown| ==> h.grown[i].base != h.base + 1
  {
    hide ValidView;
    if i < |h.grown| { ChunkEnds(h, i); }
    HomeEnds(h);
  }

  /** The growth path: link the granted block in after the sentinel, prepare it, and try there. */
  method GrowOver(m0: Memory, base: int, size: int, g: Grant, ghost h: State, ghost stale: set<int>)
    returns (m: Memory, r: Option<int>, ghost stale': set<int>)
    requires HeapRep(m0, h, stale) && base == h.base && 0 <= size < WORD
    requires GrantOk(h, size, g) && g.base + g.bytes / 8 <= |m0|
    ensures var (w, answer) := Allocate(NewChunk(g).view, UnitsFor(size));
      && r == answer
      && HeapRep(m, h.(grown := [NewChunk(g).(view := w)] + h.grown, granted := h.granted + multiset{g.base}), stale')
    ensures KeepsBlocks(m0, m, h, 0) && KeepsRest(m0, m, h, Some(g))
    ensures Forgets(stale, stale', r, UnitsFor(size), Some(g))
  {
    hide HeapRep, ValidState, Allocate, KeepsBlocks, KeepsRest, Within, A.Rep, A.StaleOk, A.Confined, A.Written,
      A.JustPrepared, GrantOk, UnitsFor;
    UnitsPositive(size);
    AtSentinel(m0, h, stale);
    NewChunkEnds(h, size, g);
    m := m0[g.base := A.Unit(m0[base + 1].next, base + 1)];
    var first := m[base + 1].next;
    m := m[first := m[first].(size := g.base)];
    m := m[base + 1 := m[base + 1].(next := g.base)];
    ghost var m1 := m;
    m := A.PrepareIn(m, g.base + 1, g.bytes - 8);
    ghost var m2, c := m, NewChunk(g);
    Grown(m0, m1, m2, h, size, g, stale);
    ghost var h' := h.(grown := [c] + h.grown, granted := h.granted + multiset{g.base});
    stale' := Reclaimed(stale, g);
    AtNode(m2, h', stale', 0);
    KeptNow(m2, h', 0, None);
    m, r := A.AllocIn(m, g.base + 1, size, c.view, Within(stale', c.view));
    ghost var units := UnitsFor(size);
    ghost var (w, answer) := Allocate(c.view, units);
    if r.Some? {
      ServedByChunk(m2, m, h', 0, units, stale');
      stale' := A.Unissued(stale', r.value - 1, units);
    }
    assert h'.grown[0 := c.(view := w)] == [c.(view := w)] + h.grown;
    KeptTwice(m0, m2, m, h, h', size, g);
  }

  /** What the growth path keeps, when the fresh chunk is then allocated from. */
  lemma KeptTwice(m0: Memory, m1: Memory, m: Memory, h: State, h': State, size: int, g: Grant)
    requires GrantOk(h, size, g) && h'.grown == [NewChunk(g)] + h.grown
    requires h'.base == h.base && h'.top == h.top && h'.home == h.home
    requires KeepsBlocks(m0, m1, h, 0) && KeepsRest(m0, m1, h, Some(g))
    requires KeepsBlocks(m1, m, h', 0) && KeepsRest(m1, m, h', None)
    ensures KeepsBlocks(m0, m, h, 0) && KeepsRest(m0, m, h, Some(g))
  {
    NewChunkEnds(h, size, g);
    hide GrantOk, NewChunk;
    forall k | 0 <= k < |h.grown|
      ensures Kept(m0, m, h.grown[k].view, 0)
    {
      assert h'.grown[k + 1] == h.grown[k];
      KeptTrans(m0, m1, m, h.grown[k].view, 0);
    }
    if h.home.Some? { KeptTrans(m0, m1, m, h.home.value, 0); }
    forall x {:trigger m[x]} | 0 <= x < |m0| && !Owns(h, x) && !Granted(Some(g), x)
      ensures m[x] == m0[x]
    {
      if Owns(h', x) { OwnedOrGranted(h, h', g, x); }
      assert m1[x] == m0[x];
    }
  }

  lemma OwnedOrGranted(h: State, h': State, g: Grant, x: int)
    requires h'.grown == [NewChunk(g)] + h.grown && h'.base == h.base && h'.top == h.top
    requires NewChunk(g).view.sentinel == g.base + g.bytes / 8 - 1
    requires Owns(h', x) && !Granted(Some(g), x)
    ensures Owns(h, x)
  {
    if !(h.base <= x < h.top) {
      var i :| 0 <= i < |h'.grown| && h'.grown[i].base <= x <= h'.grown[i].view.sentinel;
      if i > 0 { assert h.grown[i - 1] == h'.grown[i]; }
    }
  }

  lemma KeptTrans(m0: Memory, m1: Memory, m: Memory, v: View, hdr: int)
    requires Kept(m0, m1, v, hdr) && Kept(m1, m, v, hdr)
    ensures Kept(m0, m, v, hdr)
  {
    forall k | 0 <= k < |v.tiles| && v.tiles[k].live && v.tiles[k].addr != hdr
      ensures A.SameTile(m0, m, v.tiles[k])
    {
      assert A.SameTile(m0, m1, v.tiles[k]) && A.SameTile(m1, m, v.tiles[k]);
      forall x {:trigger m[x]} | 0 <= x < |m0| && v.tiles[k].addr <= x < v.tiles[k].addr + v.tiles[k].size
        ensures m[x] == m0[x]
      {
        assert m1[x] == m0[x];
      }
    }
  }

  // ----- release ------------------------------------------------------------------------------------

  /** The address of the arena behind node `i`. */
  function ArenaAt(h: State, i: int): int
    requires 0 <= i <= |h.grown|
  {
    if i < |h.grown| then h.grown[i].base + 1 else h.base + 2
  }

  predicate HasArena(h: State, i: int) {
    0 <= i < |h.grown| || (i == |h.grown| && h.home.Some?)
  }

  ghost predicate LiveIn(h: State, i: int, ptr: int) {
    HasArena(h, i) && LiveAt(ViewAt(h, i).tiles, ptr)
  }

  /** A pointer the caller may pass: in each arena one handed out, live or freed since, or else outside it. */
  ghost predicate KnownTo(m: Memory, h: State, stale: set<int>, ptr: int) {
    && 0 <= ptr - 1 < |m|
    && forall i {:trigger ViewAt(h, i)} :: HasArena(h, i) ==> A.Known(m, ViewAt(h, i), Within(stale, ViewAt(h, i)), ptr)
  }

  /** The header before `ptr` lies in the extent of an arena of the heap. */
  ghost predicate InHeap(m: Memory, h: State, ptr: int) {
    exists i {:trigger ViewAt(h, i)} :: HasArena(h, i)
      && 2 <= ViewAt(h, i).first && ViewAt(h, i).first - 2 < |m| && A.InExtent(m, ViewAt(h, i), ptr)
  }

  lemma ApartViews(h: State, i: int, j: int)
    requires ValidState(h) && HasArena(h, i) && 0 <= j <= |h.grown|
    ensures ViewAt(h, i).first == ArenaAt(h, i) + 2 && ViewAt(h, i).first <= ViewAt(h, i).sentinel
    ensures !(ViewAt(h, i).first <= ArenaAt(h, j) <= ViewAt(h, i).sentinel)
    ensures i != j ==> ArenaAt(h, i) != ArenaAt(h, j)
    ensures i != j && HasArena(h, j) ==>
      ViewAt(h, i).sentinel < ViewAt(h, j).first || ViewAt(h, j).sentinel < ViewAt(h, i).first
  {
    hide ValidState, ValidView;
    HomeEnds(h);
    if i < |h.grown| { ChunkEnds(h, i); }
    if j < |h.grown| { ChunkEnds(h, j); }
    if i < |h.grown| && j < |h.grown| && i != j { ApartAt(h, i, j); }
    if i == |h.grown| { HomeFirst(h); }
  }

  lemma HomeFirst(h: State)
    requires ValidState(h) && h.home.Some?
    ensures h.home.value.first < h.home.value.sentinel
  {
  }

  /** A live block's header names its arena. */
  lemma LiveTag(m: Memory, h: State, stale: set<int>, ptr: int, i: int)
    requires HeapRep(m, h, stale) && LiveIn(h, i, ptr)
    ensures ViewAt(h, i).first <= ptr - 1 < ViewAt(h, i).sentinel < |m| && m[ptr - 1].next == ArenaAt(h, i)
  {
    hide HeapRep, ValidView;
    AtNode(m, h, stale, i);
    A.LiveHeader(m, ViewAt(h, i), ptr);
  }

  /** A known pointer inside an arena's extent lies among its blocks. */
  lemma AmongBlocks(m: Memory, v: View, stale: set<int>, ptr: int)
    requires A.Rep(m, v) && A.StaleOk(m, v, stale) && A.Known(m, v, stale, ptr)
    requires 2 <= v.first && v.first - 2 < |m| && A.InExtent(m, v, ptr)
    ensures v.first <= ptr - 1 <= v.sentinel
  {
    if LiveAt(v.tiles, ptr) {
      A.LiveHeader(m, v, ptr);
    } else if ptr - 1 in FreeList(v) {
      A.RepRing(m, v);
      A.FreeListAbove(v);
    }
  }

  /** The word before a known pointer into the heap names an arena exactly when its block is live there. */
  lemma OwnershipTag(m: Memory, h: State, stale: set<int>, ptr: int)
    requires HeapRep(m, h, stale) && KnownTo(m, h, stale, ptr) && InHeap(m, h, ptr)
    ensures forall j {:trigger ArenaAt(h, j)} :: 0 <= j <= |h.grown| ==>
      (m[ptr - 1].next == ArenaAt(h, j) <==> LiveIn(h, j, ptr))
  {
    hide HeapRep, ValidState, ValidView, Within, A.Rep, A.StaleOk, A.Known, A.InExtent, LiveAt;
    HeapParts(m, h, stale);
    var i :| HasArena(h, i) && 2 <= ViewAt(h, i).first && ViewAt(h, i).first - 2 < |m| &&
      A.InExtent(m, ViewAt(h, i), ptr);
    var v := ViewAt(h, i);
    AtNode(m, h, stale, i);
    A.KnownPointer(m, v, Within(stale, v), ptr);
    AmongBlocks(m, v, Within(stale, v), ptr);
    forall j {:trigger ArenaAt(h, j)} | 0 <= j <= |h.grown|
      ensures m[ptr - 1].next == ArenaAt(h, j) <==> LiveIn(h, j, ptr)
    {
      ApartViews(h, i, j);
      if j != i && LiveIn(h, j, ptr) { LiveTag(m, h, stale, ptr, j); }
    }
  }

  /** What a pointer whose block is not live answers: its word may still name an arena it is not in. */
  ghost function ForeignCode(h: State, tag: int): int {
    if (exists c :: c in h.grown && tag == c.base + 1) || (h.home.Some? && tag == h.base + 2) then -2
    else if tag == h.base + 2 then -4
    else -1
  }

  /** Memory as it was but for the list's nodes. */
  ghost predicate SameOffNodes(m: Memory, m': Memory, f: seq<int>) {
    |m'| == |m| && forall x {:trigger m'[x]} :: 0 <= x < |m| && x !in f ==> m'[x] == m[x]
  }

  lemma NodeWrites(m: Memory, m': Memory, h: State, hdr: int)
    requires ValidState(h) && SameOffNodes(m, m', Nodes(h.base, h.grown))
    ensures KeepsBlocks(m, m', h, hdr) && KeepsRest(m, m', h, None)
  {
    hide ValidState, ValidView, Nodes;
    NodesApart(h);
    HomeEnds(h);
    forall k | 0 <= k < |h.grown|
      ensures Kept(m, m', h.grown[k].view, hdr)
    {
      ChunkEnds(h, k);
      OutsideKept(m, m', h.grown[k].view, hdr);
    }
    if h.home.Some? { OutsideKept(m, m', h.home.value, hdr); }
    forall x {:trigger m'[x]} | 0 <= x < |m| && !Owns(h, x)
      ensures m'[x] == m[x]
    {
      if x in Nodes(h.base, h.grown) { NodeOwned(h, x); }
    }
  }

  lemma KeepsTrans(m0: Memory, m1: Memory, m: Memory, h: State, hdr: int)
    requires KeepsBlocks(m0, m1, h, hdr) && KeepsRest(m0, m1, h, None)
    requires KeepsBlocks(m1, m, h, hdr) && KeepsRest(m1, m, h, None)
    ensures KeepsBlocks(m0, m, h, hdr) && KeepsRest(m0, m, h, None)
  {
    forall k | 0 <= k < |h.grown|
      ensures Kept(m0, m, h.grown[k].view, hdr)
    {
      KeptTrans(m0, m1, m, h.grown[k].view, hdr);
    }
    if h.home.Some? { KeptTrans(m0, m1, m, h.home.value, hdr); }
    forall x {:trigger m[x]} | 0 <= x < |m0| && !Owns(h, x)
      ensures m[x] == m0[x]
    {
      assert m1[x] == m0[x];
    }
  }

  lemma NodesWithout(base: int, grown: seq<Chunk>, i: int)
    requires 0 <= i < |grown|
    ensures Nodes(base, grown[..i] + grown[i + 1..]) == Nodes(base, grown)[..i + 1] + Nodes(base, grown)[i + 2..]
    ensures Nodes(base, grown)[i + 1] == grown[i].base
  {
  }

  /** The heap without its chunk `i`, given back to SYSMEM. */
  function GivenBack(h: State, i: int): State
    requires 0 <= i < |h.grown|
  {
    h.(grown := h.grown[..i] + h.grown[i + 1..], returned := h.returned + multiset{h.grown[i].base})
  }

  /** The heap with `v` as chunk `i`'s arena, or without the chunk when `v` has nothing live. */
  ghost function FreedIn(h: State, i: int, v: View): State
    requires 0 <= i < |h.grown|
  {
    if LiveUnits(v.tiles) == 0 then GivenBack(h, i) else h.(grown := h.grown[i := h.grown[i].(view := v)])
  }

  lemma NodesSeeNone(m: Memory, m': Memory, h: State, k: int, stale: set<int>)
    requires ValidState(h) && SameOffNodes(m, m', Nodes(h.base, h.grown))
    requires 0 <= k < |h.grown| && ChunkRep(m, h.grown[k], stale)
    ensures ChunkRep(m', h.grown[k], stale)
  {
    NodesApart(h);
    hide ValidState, Nodes, ValidView, ChunkRep;
    ChunkFrame(m, m', h.grown[k], stale, stale);
  }

  /** Taking an arena's chunk off the list leaves the heap without it. */
  lemma UnlinkStep(m: Memory, h: State, i: int, stale: set<int>)
    requires HeapRep(m, h, stale) && 0 <= i < |h.grown|
    ensures var x := h.grown[i].base;
      && 0 <= x < |m| && 0 <= m[x].next < |m| && 0 <= m[x].size < |m| && m[x].size != x
      && HeapRep(UnlinkMem(m, x), GivenBack(h, i), stale)
      && SameOffNodes(m, UnlinkMem(m, x), Nodes(h.base, h.grown))
  {
    hide HeapRep, ValidState, HomeRep, ChunkRep, Threaded, Nodes, UnlinkMem;
    var f, x, h' := Nodes(h.base, h.grown), h.grown[i].base, GivenBack(h, i);
    HeapParts(m, h, stale);
    NodesApart(h);
    NodesWithout(h.base, h.grown, i);
    NodeAt(m, f, i + 1);
    UnlinkThreads(m, f, i + 1);
    var m' := UnlinkMem(m, x);
    ChunkRemoved(h, i);
    HomeEnds(h);
    HomeFrame(m, m', h, h', stale, stale);
    forall k | 0 <= k < |h'.grown|
      ensures ChunkRep(m', h'.grown[k], stale)
    {
      var o := if k < i then k else k + 1;
      NodesSeeNone(m, m', h, o, stale);
    }
    HeapOf(m', h', stale);
    assert m[x].size != x by { BeforeOther(f, i + 1); }
  }

  lemma BeforeOther(f: seq<int>, k: int)
    requires Lists.Distinct(f) && 0 < k < |f|
    ensures A.Before(f, k) != f[k]
  {
  }

  /** A release in a grown chunk's arena, carried to the heap. */
  lemma ReleasedInChunk(m: Memory, m': Memory, h: State, i: int, ptr: int, stale: set<int>)
    requires HeapRep(m, h, stale) && 0 <= i < |h.grown| && LiveAt(h.grown[i].view.tiles, ptr)
    requires var v := h.grown[i].view;
      && A.Rep(m', Release(v, ptr)) && A.StaleOk(m', Release(v, ptr), Within(stale, v) + {ptr - 1})
      && A.Confined(m, m', v, ptr - 1)
    ensures var v := h.grown[i].view;
      && HeapRep(m', h.(grown := h.grown[i := h.grown[i].(view := Release(v, ptr))]), stale + {ptr - 1})
      && KeepsBlocks(m, m', h, ptr - 1) && KeepsRest(m, m', h, None)
  {
    hide Release, ValidState, HeapRep, ValidView, LiveAt, A.Rep, A.StaleOk, Within, A.Confined, SameStale;
    var v := h.grown[i].view;
    HeapParts(m, h, stale);
    ChunkEnds(h, i);
    ArenaIsValid(m, v, stale);
    A.LiveHeader(m, v, ptr);
    ReleasedIn(v, ptr, stale);
    ConfinedOutside(m, m', v, ptr - 1);
    ChunkStep(m, m', h, i, Release(v, ptr), stale, stale + {ptr - 1});
    ConfinedToChunk(m, m', h, i, ptr - 1);
  }

  lemma ReleasedAtHome(m: Memory, m': Memory, h: State, ptr: int, stale: set<int>)
    requires HeapRep(m, h, stale) && h.home.Some? && LiveAt(h.home.value.tiles, ptr)
    requires var v := h.home.value;
      && A.Rep(m', Release(v, ptr)) && A.StaleOk(m', Release(v, ptr), Within(stale, v) + {ptr - 1})
      && A.Confined(m, m', v, ptr - 1)
    ensures var v := h.home.value;
      && HeapRep(m', h.(home := Some(Release(v, ptr))), stale + {ptr - 1})
      && KeepsBlocks(m, m', h, ptr - 1) && KeepsRest(m, m', h, None)
  {
    hide Release, ValidState, HeapRep, ValidView, LiveAt, A.Rep, A.StaleOk, Within, A.Confined, SameStale;
    var v := h.home.value;
    HeapParts(m, h, stale);
    HomeEnds(h);
    ArenaIsValid(m, v, stale);
    A.LiveHeader(m, v, ptr);
    ReleasedIn(v, ptr, stale);
    ConfinedOutside(m, m', v, ptr - 1);
    HomeStep(m, m', h, Release(v, ptr), stale, stale + {ptr - 1});
    ConfinedToHome(m, m', h, ptr - 1);
  }

  /** Which arena FreeHeap finds, by the walk's own test. */
  lemma OwnerIs(m: Memory, h: State, stale: set<int>, ptr: int, i: int)
    requires HeapRep(m, h, stale) && LiveIn(h, i, ptr)
    ensures i < |h.grown| ==> Owner(h.grown, ptr) == i
    ensures i == |h.grown| ==> Owner(h.grown, ptr) == i && h.home.Some? && LiveAt(h.home.value.tiles, ptr)
  {
    hide HeapRep, ValidState, LiveAt, ValidView;
    HeapParts(m, h, stale);
    LiveTag(m, h, stale, ptr, i);
    var o := Owner(h.grown, ptr);
    if o < |h.grown| && o != i {
      LiveTag(m, h, stale, ptr, o);
      ApartViews(h, i, o);
    }
  }

  lemma NoOwner(h: State, ptr: int)
    ensures FreeHeap(h, ptr).1 == if NoneLive(h, ptr) then NOT_OWNED else 0
    ensures NoneLive(h, ptr) ==> FreeHeap(h, ptr).0 == h
  {
    hide LiveAt, Release, LiveUnits;
  }

  /** No block is live where the word is not the arena's address. */
  lemma NoneNamed(m: Memory, h: State, stale: set<int>, ptr: int)
    requires HeapRep(m, h, stale)
    requires 0 <= ptr - 1 < |m| ==> forall k {:trigger ArenaAt(h, k)} :: 0 <= k <= |h.grown| && LiveIn(h, k, ptr) ==>
      m[ptr - 1].next != ArenaAt(h, k)
    ensures NoneLive(h, ptr)
  {
    hide HeapRep, ValidState, LiveAt, ValidView;
    HeapParts(m, h, stale);
    HomeEnds(h);
    forall k | 0 <= k < |h.grown|
      ensures !LiveAt(h.grown[k].view.tiles, ptr)
    {
      ChunkEnds(h, k);
      assert ArenaAt(h, k) == h.grown[k].base + 1;
      if LiveIn(h, k, ptr) { LiveTag(m, h, stale, ptr, k); }
    }
    assert ArenaAt(h, |h.grown|) == h.base + 2;
    if LiveIn(h, |h.grown|, ptr) { LiveTag(m, h, stale, ptr, |h.grown|); }
  }

  /** The heap once the block at `ptr` in the arena behind node `i` is free; an emptied chunk goes back. */
  lemma FreeHeapAt(m: Memory, h: State, stale: set<int>, ptr: int, i: int)
    requires HeapRep(m, h, stale) && LiveIn(h, i, ptr)
    ensures i < |h.grown| ==> FreeHeap(h, ptr) == (FreedIn(h, i, Release(h.grown[i].view, ptr)), 0)
    ensures i == |h.grown| ==> FreeHeap(h, ptr) == (h.(home := Some(Release(h.home.value, ptr))), 0)
  {
    hide HeapRep, Release, LiveAt, LiveUnits;
    OwnerIs(m, h, stale, ptr, i);
  }

  /** A word that names the arena behind node `i`, before a pointer that is not live there. */
  lemma NotLiveHere(m: Memory, h: State, stale: set<int>, ptr: int, i: int)
    requires HeapRep(m, h, stale) && KnownTo(m, h, stale, ptr) && 0 <= i <= |h.grown|
    requires m[ptr - 1].next == ArenaAt(h, i)
    requires !LiveIn(h, i, ptr)
    ensures NoneLive(h, ptr)
    ensures HasArena(h, i) ==> !A.InExtent(m, ViewAt(h, i), ptr) && ForeignCode(h, m[ptr - 1].next) == OUT_OF_RANGE
    ensures !HasArena(h, i) ==> ForeignCode(h, m[ptr - 1].next) == BAD_ARENA
  {
    hide HeapRep, ValidState, LiveAt, Within, A.Rep, A.StaleOk, A.Known, A.InExtent, ValidView;
    HeapParts(m, h, stale);
    forall k {:trigger ArenaAt(h, k)} | 0 <= k <= |h.grown| && k != i
      ensures ArenaAt(h, k) != ArenaAt(h, i)
    {
      if HasArena(h, k) { ApartViews(h, k, i); } else { ApartViews(h, i, k); }
    }
    NoneNamed(m, h, stale, ptr);
    if HasArena(h, i) {
      AtNode(m, h, stale, i);
      A.KnownPointer(m, ViewAt(h, i), Within(stale, ViewAt(h, i)), ptr);
      ApartViews(h, i, i);
    }
    forall c | c in h.grown && i == |h.grown|
      ensures c.base + 1 != ArenaAt(h, i)
    {
      var k :| 0 <= k < |h.grown| && h.grown[k] == c;
      assert ArenaAt(h, k) == c.base + 1;
    }
  }

  lemma NotNamed(h: State, tag: int)
    requires forall k {:trigger ArenaAt(h, k)} :: 0 <= k <= |h.grown| ==> tag != ArenaAt(h, k)
    ensures ForeignCode(h, tag) == NOT_OWNED
  {
    assert tag != ArenaAt(h, |h.grown|);
    forall c | c in h.grown
      ensures tag != c.base + 1
    {
      var k :| 0 <= k < |h.grown| && h.grown[k] == c;
      assert tag != ArenaAt(h, k);
    }
  }

  /** After a release in a grown chunk: when its used count reads zero, unlink it and give it back. */
  method GiveBackEmpty(m0: Memory, m1: Memory, node: int, ghost h: State, ghost i: int, ghost ptr: int,
                       ghost stale: set<int>)
    returns (m: Memory, back: Option<int>)
    requires HeapRep(m0, h, stale) && 0 <= i < |h.grown| && node == h.grown[i].base
    requires LiveAt(h.grown[i].view.tiles, ptr)
    requires var v := h.grown[i].view;
      && A.Rep(m1, Release(v, ptr)) && A.StaleOk(m1, Release(v, ptr), Within(stale, v) + {ptr - 1})
      && A.Confined(m0, m1, v, ptr - 1)
    ensures var v := Release(h.grown[i].view, ptr);
      && HeapRep(m, FreedIn(h, i, v), stale + {ptr - 1})
      && back == if LiveUnits(v.tiles) == 0 then Some(node) else None
    ensures KeepsBlocks(m0, m, h, ptr - 1) && KeepsRest(m0, m, h, None)
    ensures 0 <= ptr - 1 < |m| == |m1| && m[ptr - 1] == m1[ptr - 1]
  {
    hide HeapRep, ValidState, KeepsBlocks, KeepsRest, Within, LiveAt, Release, LiveUnits, A.Rep, A.StaleOk, A.Confined,
      Nodes;
    ghost var v := Release(h.grown[i].view, ptr);
    ghost var h1 := h.(grown := h.grown[i := h.grown[i].(view := v)]);
    ghost var stale1 := stale + {ptr - 1};
    HeapParts(m0, h, stale);
    ReleasedInChunk(m0, m1, h, i, ptr, stale);
    AtNode(m1, h1, stale1, i);
    A.EnterRing(m1, v);
    m, back := m1, None;
    LiveTag(m0, h, stale, ptr, i);
    ConfinedOutside(m0, m1, h.grown[i].view, ptr - 1);
    if m[node + 2].next == 0 {
      UnlinkStep(m1, h1, i, stale1);
      m := m[m[node].size := m[m[node].size].(next := m[node].next)];
      m := m[m[node].next := m[m[node].next].(size := m[node].size)];
      back := Some(node);
      SameNodes(h.base, h.grown, i, v);
      NodeWrites(m1, m, h, ptr - 1);
      NodesApart(h);
      KeepsTrans(m0, m1, m, h, ptr - 1);
      assert GivenBack(h1, i) == GivenBack(h, i) by {
        assert h1.grown[..i] == h.grown[..i] && h1.grown[i + 1..] == h.grown[i + 1..];
      }
    }
  }

  /** A block just freed is refused when it is freed again, even when its chunk went back with it. */
  lemma FreedTag(m: Memory, m': Memory, h: State, stale: set<int>, ptr: int, i: int)
    requires HeapRep(m, h, stale) && LiveIn(h, i, ptr) && |m'| == |m|
    requires var v := ViewAt(h, i); A.StaleOk(m', Release(v, ptr), Within(stale, v) + {ptr - 1})
    ensures 0 <= ptr - 1 < |m'| && ForeignCode(FreeHeap(h, ptr).0, m'[ptr - 1].next) == NOT_OWNED
  {
    hide HeapRep, ValidState, LiveAt, Release, FreeHeap, Within, ForeignCode;
    HeapParts(m, h, stale);
    LiveTag(m, h, stale, ptr, i);
    ApartViews(h, i, i);
    var v := ViewAt(h, i);
    ReleasedBounds(h, i, ptr);
    assert ptr - 1 in Within(stale, v) + {ptr - 1};
    var tag := m'[ptr - 1].next;
    forall k {:trigger ArenaAt(h, k)} | 0 <= k <= |h.grown|
      ensures tag != ArenaAt(h, k)
    {
      ApartViews(h, i, k);
    }
    NotNamed(h, tag);
    FewerArenas(h, ptr, tag);
  }

  lemma ReleasedBounds(h: State, i: int, ptr: int)
    requires ValidState(h) && LiveIn(h, i, ptr)
    ensures var v := ViewAt(h, i); Release(v, ptr).first == v.first && Release(v, ptr).sentinel == v.sentinel
  {
    hide ValidView;
    HomeEnds(h);
    if i < |h.grown| { ChunkEnds(h, i); }
    ReleaseFacts(ViewAt(h, i), ptr);
  }

  /** A release adds no arena. */
  lemma FewerArenas(h: State, ptr: int, tag: int)
    requires ForeignCode(h, tag) == NOT_OWNED
    ensures ForeignCode(FreeHeap(h, ptr).0, tag) == NOT_OWNED
  {
    hide LiveAt, Release, LiveUnits;
    var o, h' := Owner(h.grown, ptr), FreeHeap(h, ptr).0;
    forall c | c in h'.grown
      ensures tag != c.base + 1
    {
      var k :| 0 <= k < |h'.grown| && h'.grown[k] == c;
      var d := h.grown[if |h'.grown| == |h.grown| || k < o then k else k + 1];
      assert d in h.grown && d.base == c.base;
    }
  }

  /** freeHeapMemory: the header's word picks the arena, and a grown chunk goes back with its last block. */
  method FreeOver(m0: Memory, base: int, ptr: int, ghost h: State, ghost stale: set<int>)
    returns (m: Memory, code: int, back: Option<int>, ghost stale': set<int>)
    requires HeapRep(m0, h, stale) && base == h.base && (ptr != 0 ==> KnownTo(m0, h, stale, ptr))
    ensures HeapRep(m, FreeHeap(h, ptr).0, stale')
    ensures FreeHeap(h, ptr).0.returned == h.returned + if back.Some? then multiset{back.value} else multiset{}
    ensures FreeHeap(h, ptr).1 == 0 ==> code == 0
    ensures stale' == if FreeHeap(h, ptr).1 == 0 then stale + {ptr - 1} else stale
    ensures FreeHeap(h, ptr).1 != 0 ==>
      m == m0 && code == if ptr == 0 then NOT_OWNED else ForeignCode(h, m0[ptr - 1].next)
    ensures KeepsBlocks(m0, m, h, ptr - 1) && KeepsRest(m0, m, h, None)
    ensures code == 0 ==> 0 <= ptr - 1 < |m| && ForeignCode(FreeHeap(h, ptr).0, m[ptr - 1].next) == NOT_OWNED
  {
    hide HeapRep, ValidState, KeepsBlocks, KeepsRest, Within, LiveAt, Release, FreeHeap, ForeignCode;
    hide A.Rep, A.StaleOk, A.Confined, A.Written, A.Known, A.InExtent;
    m, back, stale' := m0, None, stale;
    KeptNow(m0, h, ptr - 1, None);
    HeapParts(m0, h, stale);
    AtSentinel(m0, h, stale);
    NoOwner(h, ptr);
    if ptr == 0 {
      NoneNamed(m0, h, stale, ptr);
      return m0, NOT_OWNED, None, stale;
    }
    var tag := m0[ptr - 1].next;
    var node := m0[base + 1].next;
    ghost var i := 0;
    while true
      invariant 0 <= i <= |h.grown| && node == if i < |h.grown| then h.grown[i].base else base + 1
      invariant forall k {:trigger ArenaAt(h, k)} :: 0 <= k < i ==> tag != ArenaAt(h, k)
      decreases |h.grown| - i
    {
      AtNode(m0, h, stale, i);
      SentinelIsLast(h, i);
      if tag == node + 1 {
        ghost var v := ViewAt(h, i);
        m, code := A.FreeIn(m0, node + 1, ptr, v, Within(stale, v));
        if code == 0 {
          FreeHeapAt(m0, h, stale, ptr, i);
          FreedTag(m0, m, h, stale, ptr, i);
          stale' := stale + {ptr - 1};
          if node != base + 1 {
            m, back := GiveBackEmpty(m0, m, node, h, i, ptr, stale);
          } else {
            ReleasedAtHome(m0, m, h, ptr, stale);
          }
        } else {
          NotLiveHere(m0, h, stale, ptr, i);
        }
        return;
      }
      if node == base + 1 {
        NotNamed(h, tag);
        NoneNamed(m0, h, stale, ptr);
        return m0, NOT_OWNED, None, stale;
      }
      node := m0[node].next;
      i := i + 1;
    }
  }

  /** A freed block's pointer, until its space is handed out again, answers -1 in every held arena. */
  lemma StaleRefused(m: Memory, h: State, stale: set<int>, ptr: int)
    requires HeapRep(m, h, stale) && KnownTo(m, h, stale, ptr) && InHeap(m, h, ptr) && NoneLive(h, ptr)
    ensures ForeignCode(h, m[ptr - 1].next) == NOT_OWNED
  {
    hide HeapRep, InHeap, LiveAt, A.Known;
    OwnershipTag(m, h, stale, ptr);
    NotNamed(h, m[ptr - 1].next);
  }

  /** Freed blocks' headers lie in memory, and not in what the home arena leaves of the heap object's block. */
  ghost predicate StaleInside(m: Memory, h: State, stale: set<int>) {
    forall x :: x in stale ==> 0 <= x < |m| && !(h.home.Some? && h.home.value.sentinel < x < h.top)
  }

  /** A block handed out, live or freed since and not reissued, may be passed back. */
  lemma HandedOutIsKnown(m: Memory, h: State, stale: set<int>, ptr: int)
    requires HeapRep(m, h, stale) && StaleInside(m, h, stale) && (ptr - 1 in stale || !NoneLive(h, ptr))
    ensures KnownTo(m, h, stale, ptr)
  {
    hide HeapRep, ValidState, LiveAt, A.Rep, A.StaleOk, ValidView;
    HeapParts(m, h, stale);
    HomeEnds(h);
    var o := Owner(h.grown, ptr);
    if !NoneLive(h, ptr) { LiveTag(m, h, stale, ptr, o); }
    forall i {:trigger ViewAt(h, i)} | HasArena(h, i)
      ensures A.Known(m, ViewAt(h, i), Within(stale, ViewAt(h, i)), ptr)
    {
      AtNode(m, h, stale, i);
      ExtentEnd(m, h, stale, i, ptr);
      if !NoneLive(h, ptr) && o != i {
        ApartViews(h, i, o);
        if o < |h.grown| { ChunkEnds(h, o); }
      }
    }
  }

  /** An arena's extent reaches its sentinel, and at home perhaps the rest of the heap object's block. */
  lemma ExtentEnd(m: Memory, h: State, stale: set<int>, i: int, ptr: int)
    requires HeapRep(m, h, stale) && HasArena(h, i)
    ensures var v := ViewAt(h, i);
      2 <= v.first && v.first - 2 < |m| && v.sentinel in FreeList(v)
      && (A.InExtent(m, v, ptr) ==>
        v.first <= ptr - 1 <= v.sentinel || (i == |h.grown| && v.sentinel < ptr - 1 < h.top))
  {
    hide ValidState, ValidView, A.StaleOk, A.Rep;
    HeapParts(m, h, stale);
    AtNode(m, h, stale, i);
    if i < |h.grown| { ChunkEnds(h, i); } else { HomeEnds(h); }
  }

  // ----- the heap object ---------------------------------------------------------------------------------

  ghost function FreeOf(cs: seq<Chunk>): int {
    if cs == [] then 0 else FreeUnits(cs[0].view.tiles) + FreeOf(cs[1..])
  }

  /** heapChunkSize, which reads the arena's words whatever they are. */
  function ChunkSize(m: Memory, at: int): int
    requires 0 <= at < |m| - 1
  {
    ((m[at].size - 0x10) / 8 - m[at + 1].next - 1) * 8
  }

  lemma ChunkSizeIsFree(m: Memory, v: View)
    requires A.Rep(m, v)
    ensures 2 <= v.first < |m| && ChunkSize(m, v.first - 2) == 8 * FreeUnits(v.tiles)
  {
    UnitsSplit(v.tiles);
  }

  /** A client's write inside a live block is no word the heap reads. */
  lemma PayloadKept(m: Memory, h: State, stale: set<int>, i: int, ptr: int, offset: int, u: A.Unit)
    requires HeapRep(m, h, stale) && LiveIn(h, i, ptr)
    requires 0 <= offset && offset + 1 < SizeAt(ViewAt(h, i).tiles, ptr - 1)
    ensures 0 <= ptr + offset < |m| && HeapRep(m[ptr + offset := u], h, stale)
  {
    hide HeapRep, ValidState, LiveAt, A.Rep, A.StaleOk, ValidView, SizeAt, Within;
    HeapParts(m, h, stale);
    AtNode(m, h, stale, i);
    LiveTag(m, h, stale, ptr, i);
    var v := ViewAt(h, i);
    A.PayloadIsNoHeader(m, v, ptr, offset, Within(stale, v), u);
    PayloadInside(m, v, ptr, offset);
    var m' := m[ptr + offset := u];
    if i < |h.grown| {
      ChunkStep(m, m', h, i, v, stale, stale);
      assert h.grown[i := h.grown[i].(view := v)] == h.grown;
    } else {
      HomeStep(m, m', h, v, stale, stale);
    }
  }

  lemma PayloadInside(m: Memory, v: View, ptr: int, offset: int)
    requires A.Rep(m, v) && LiveAt(v.tiles, ptr) && 0 <= offset && offset + 1 < SizeAt(v.tiles, ptr - 1)
    ensures v.first < ptr + offset < v.sentinel
  {
    ContiguousBounds(v.tiles, v.first);
    var i := TileAt(v.tiles, ptr - 1);
    assert v.tiles[i] in v.tiles;
  }

  /** A heap whose object has just been written: no chunks, and the home arena if there was room for one. */
  lemma NewHeap(m: Memory, h: State)
    requires 0 < h.base && h.base + 4 <= h.top <= |m| && h.grown == []
    requires m[h.base + 1] == A.Unit(h.base + 1, h.base + 1)
    requires h.home.None? ==> !A.Prepared(m, h.base + 2)
    requires h.home.Some? ==> var v := h.home.value;
      && A.Rep(m, v) && A.StaleOk(m, v, {}) && v.first == h.base + 4 && v.sentinel < h.top
      && 8 * (h.base + 2) + m[h.base + 2].size <= 8 * h.top
    ensures HeapRep(m, h, {})
  {
    hide A.Rep, A.StaleOk, ValidView;
    if h.home.Some? {
      assert Within({}, h.home.value) == {};
      A.RepRing(m, h.home.value);
    }
    assert Nodes(h.base, h.grown) == [h.base + 1];
  }

  /** The home arena ends inside the block SYSMEM granted. */
  lemma HomeRoom(g: Grant, rounded: int)
    requires 0x39 <= rounded <= g.bytes && g.bytes % 0x100 == 0
    ensures (rounded - 0x20) / 8 >= 3 && 4 + (rounded - 0x20) / 8 <= g.bytes / 8
    ensures 8 * (g.base + 2) + (rounded - 0x10) <= 8 * (g.base + g.bytes / 8)
  {
    var q := g.bytes / 0x100;
    assert g.bytes == 8 * (32 * q);
  }

  /** A home arena of `units` units from `first` on, all of them one free block. */
  ghost predicate HomeIs(home: Option<View>, first: int, units: int) {
    && home.Some? && units > 0
    && home.value.first == first && home.value.sentinel == first + units && home.value.rover == first
    && home.value.tiles == [Tile(first, units, false)]
  }

  /** A heap just created gives out its home arena's units, and no more without growing. */
  lemma CreatedServes(h: State, units: int, size: int, grant: Option<Grant>)
    requires ValidState(h) && h.grown == [] && HomeIs(h.home, h.base + 4, units) && 0 <= size < WORD
    requires grant.Some? ==> GrantOk(h, size, grant.value)
    ensures FreeOf(h.grown) + FreeUnits(h.home.value.tiles) == units
    ensures var (h', r) := AllocHeap(h, size, grant);
      && (UnitsFor(size) <= units ==> r == Some(h.base + 4 + units - UnitsFor(size) + 1) && h'.grown == [])
      && (UnitsFor(size) > units && (h.growth == 0 || grant.None?) ==> r == None && h' == h)
      && (UnitsFor(size) > units && h.growth != 0 && grant.Some? ==> |h'.grown| == 1)
  {
    var v := h.home.value;
    assert v.tiles == [v.tiles[0]] && v.tiles[0] in v.tiles;
    UnitsPositive(size);
    AllocateRefusesIff(v, UnitsFor(size));
    OneBlockServes(v, UnitsFor(size));
    hide Allocate, ValidView, UnitsFor;
    assert Serving(h.grown, UnitsFor(size)) == 0;
  }

  /** An arena that is one free block hands out its tail. */
  lemma OneBlockServes(v: View, units: int)
    requires ValidView(v) && units > 0 && v.tiles == [Tile(v.first, v.sentinel - v.first, false)]
    ensures units <= v.sentinel - v.first ==> Allocate(v, units).1 == Some(v.sentinel - units + 1)
  {
    if units <= v.sentinel - v.first {
      AllocateRefusesIff(v, units);
      PickIsFree(v, units);
    }
  }

  /** createHeap's writes: the heap's own words, the list on itself, and the home arena if there is room for one. */
  method CreateIn(m0: Memory, g: Grant, rounded: int, growth: int) returns (m: Memory, ghost home: Option<View>)
    requires 0 <= rounded <= g.bytes < 0x8000_0000 && g.bytes % 0x100 == 0 && g.bytes > 0 && g.base > 0
    requires g.base + g.bytes / 8 <= |m0| && (rounded < 0x39 ==> !A.Prepared(m0, g.base + 2))
    ensures HeapRep(m, State(g.base, g.base + g.bytes / 8, growth, [], home, multiset{g.base}, multiset{}), {})
    ensures home.Some? <==> rounded >= 0x39
    ensures home.Some? ==> HomeIs(home, g.base + 4, (rounded - 0x20) / 8 - 1)
    ensures m[g.base] == A.Unit(8 * g.base + 1, growth) && m[g.base + 1] == A.Unit(g.base + 1, g.base + 1)
    ensures home.Some? ==> A.JustPrepared(m, g.base + 2, rounded - 0x10)
    ensures A.SameOutside(m0, m, g.base, g.base + g.bytes / 8)
  {
    hide A.Rep, A.StaleOk, ValidView, HeapRep;
    m := m0[g.base := A.Unit(8 * g.base + 1, growth)];
    m := m[g.base + 1 := A.Unit(g.base + 1, g.base + 1)];
    home := None;
    // heapPrepare refuses fewer than 0x29 bytes.
    if rounded - 0x10 >= 0x29 {
      HomeRoom(g, rounded);
      m := A.PrepareIn(m, g.base + 2, rounded - 0x10);
      home := Some(Fresh(g.base + 4, (rounded - 0x10 - 0x10) / 8 - 1));
    }
    NewHeap(m, State(g.base, g.base + g.bytes / 8, growth, [], home, multiset{g.base}, multiset{}));
  }

  /** deleteHeap's walk: every grown chunk, then the heap object itself, in the order they are given back. */
  method ReleaseAll(m: Memory, base: int, ghost h: State, ghost stale: set<int>) returns (released: seq<int>)
    requires HeapRep(m, h, stale) && base == h.base
    ensures released == Nodes(h.base, h.grown)[1..] + [base]
  {
    hide HeapRep, ValidState, A.Rep, A.StaleOk, Within, A.Prepared;
    AtSentinel(m, h, stale);
    HeapParts(m, h, stale);
    var node := m[base + 1].next;
    released := [];
    ghost var i, f := 0, Nodes(h.base, h.grown)[1..];
    while node != base + 1
      invariant 0 <= i <= |h.grown| && node == if i < |h.grown| then h.grown[i].base else base + 1
      invariant released == f[..i]
      decreases |h.grown| - i
    {
      AtNode(m, h, stale, i);
      var next := m[node].next;
      released := released + [node];
      node, i := next, i + 1;
      SentinelIsLast(h, i);
    }
    SentinelIsLast(h, i);
    assert released == f;
    released := released + [base];
  }

  lemma {:induction false} BasesOfNodes(base: int, grown: seq<Chunk>)
    ensures multiset(Nodes(base, grown)[1..]) == Bases(grown)
  {
    var f := Nodes(base, grown)[1..];
    if grown != [] {
      BasesOfNodes(base, grown[1..]);
      assert f == [grown[0].base] + Nodes(base, grown[1..])[1..];
    }
  }

  class GrowableHeap {
    var mem: Memory
    /** The heap object's block, and the size its chunks grow by; zero does not grow. */
    const base: int
    const top: int
    const growth: int

    /** What memory holds. */
    ghost var grown: seq<Chunk>
    ghost var home: Option<View>
    /** Headers of blocks that were freed and whose space has not been handed out again. */
    ghost var stale: set<int>
    /** What SYSMEM has handed this heap and taken back, address by address. */
    ghost var granted: multiset<int>
    ghost var returned: multiset<int>

    ghost function Abs(): State
      reads this
    {
      State(base, top, growth, grown, home, granted, returned)
    }

    ghost predicate Valid()
      reads this
    {
      HeapRep(mem, Abs(), stale) && StaleInside(mem, Abs(), stale) && Balanced(Abs())
    }

    /** Ordinal 4, over the block SYSMEM granted for the rounded size. */
    constructor (mem: Memory, g: Grant, size: int, growable: bool)
      requires 0 <= size <= WORD - 4 && (size + 3) / 4 * 4 <= g.bytes < 0x8000_0000 && g.bytes % 0x100 == 0
      requires g.bytes > 0 && g.base > 0 && g.base + g.bytes / 8 <= |mem|
      requires (size + 3) / 4 * 4 < 0x39 ==> !A.Prepared(mem, g.base + 2)
      ensures Valid() && Created(Abs()) && base == g.base
      ensures home.Some? <==> (size + 3) / 4 * 4 >= 0x39
      ensures home.Some? ==> HomeIs(home, g.base + 4, ((size + 3) / 4 * 4 - 0x20) / 8 - 1)
      ensures growth == if growable then (size + 3) / 4 * 4 else 0
      ensures this.mem[g.base] == A.Unit(8 * g.base + 1, growth)
      ensures this.mem[g.base + 1] == A.Unit(g.base + 1, g.base + 1)
      ensures home.Some? ==> A.JustPrepared(this.mem, g.base + 2, (size + 3) / 4 * 4 - 0x10)
      ensures A.SameOutside(mem, this.mem, g.base, g.base + g.bytes / 8)
    {
      hide HeapRep;
      var rounded := (size + 3) / 4 * 4;
      var m;
      ghost var home;
      m, home := CreateIn(mem, g, rounded, if growable then rounded else 0);
      this.base, this.top, this.growth := g.base, g.base + g.bytes / 8, if growable then rounded else 0;
      this.mem, this.grown, this.home, this.stale := m, [], home, {};
      this.granted, this.returned := multiset{g.base}, multiset{};
      new;
      HeapParts(this.mem, Abs(), stale);
    }

    /** Ordinal 6. */
    method AllocHeapMemory(size: int, grant: Option<Grant>) returns (r: Option<int>)
      requires Valid() && 0 <= size < WORD
      requires grant.Some? ==> GrantOk(Abs(), size, grant.value) && grant.value.base + grant.value.bytes / 8 <= |mem|
      modifies this
      ensures Valid() && (Abs(), r) == AllocHeap(old(Abs()), size, grant)
      ensures old(Busy(Abs())) && !Wraps(size) ==> Busy(Abs())
      // What is answered is a live block of the units asked for, and every block held stays, apart from it.
      ensures HeapIssues(old(Abs()), Abs(), r, UnitsFor(size))
      ensures Forgets(old(stale), stale, r, UnitsFor(size), if granted == old(granted) then None else grant)
      // No live block, and nothing outside the heap and the block granted, is written.
      ensures KeepsBlocks(old(mem), mem, old(Abs()), 0)
      ensures KeepsRest(old(mem), mem, old(Abs()), if granted == old(granted) then None else grant)
    {
      hide HeapRep, ValidState, Balanced, Busy, Allocate, GrantOk, KeepsBlocks, KeepsRest, AllocHeap, StaleInside,
        Wraps, HeapIssues;
      ghost var h, h' := Abs(), AllocHeap(Abs(), size, grant).0;
      HeapParts(mem, h, stale);
      AllocHeapValid(h, size, grant);
      AllocHeapFields(h, size, grant);
      AllocHeapIssues(h, size, grant);
      var taken;
      ghost var m0, stale0 := mem, stale;
      mem, r, taken, stale := AllocOver(mem, base, growth, size, grant, h, stale);
      StaleStays(m0, mem, h, h', stale0, stale, if taken.Some? then grant else None);
      grown, home, granted := h'.grown, h'.home, granted + if taken.Some? then multiset{taken.value} else multiset{};
      assert Abs() == h';
    }

    /** Ordinal 7. */
    method FreeHeapMemory(ptr: int) returns (code: int)
      requires Valid()
      requires ptr == 0 || !NoneLive(Abs(), ptr) || ptr - 1 in stale || KnownTo(mem, Abs(), stale, ptr)
      modifies this
      ensures Valid() && Abs() == FreeHeap(old(Abs()), ptr).0
      ensures old(Busy(Abs())) ==> Busy(Abs())
      ensures NoneLive(old(Abs()), ptr) <==> code != 0
      ensures code == 0 ==> HeapFrees(old(Abs()), Abs(), ptr)
      ensures stale == if code == 0 then old(stale) + {ptr - 1} else old(stale)
      ensures code != 0 ==>
        mem == old(mem) && Abs() == old(Abs()) &&
          code == if ptr == 0 then -1 else ForeignCode(Abs(), mem[ptr - 1].next)
      // A block just freed would be refused if it were freed again.
      ensures code == 0 ==> 0 <= ptr - 1 < |mem| && ForeignCode(Abs(), mem[ptr - 1].next) == -1
      // A freed block's pointer, or one to a block not carved yet.
      ensures code != 0 && ptr != 0 && InHeap(mem, Abs(), ptr) ==> code == -1
      ensures KeepsBlocks(old(mem), mem, old(Abs()), ptr - 1) && KeepsRest(old(mem), mem, old(Abs()), None)
    {
      hide HeapRep, ValidState, Balanced, Busy, FreeHeap, KnownTo, InHeap, NoneLive, KeepsBlocks, KeepsRest,
        StaleInside, ForeignCode, HeapFrees;
      ghost var h, h' := Abs(), FreeHeap(Abs(), ptr).0;
      HeapParts(mem, h, stale);
      FreeHeapValid(h, ptr);
      FreeHeapFields(h, ptr);
      NoOwner(h, ptr);
      if !NoneLive(h, ptr) || ptr - 1 in stale { HandedOutIsKnown(mem, h, stale, ptr); }
      if !NoneLive(h, ptr) { FreeHeapFrees(h, ptr); }
      if ptr != 0 && NoneLive(h, ptr) && InHeap(mem, h, ptr) { StaleRefused(mem, h, stale, ptr); }
      var back;
      ghost var m0, stale0 := mem, stale;
      mem, code, back, stale := FreeOver(mem, base, ptr, h, stale);
      if code == 0 { StaleGrows(m0, mem, h, h', stale0, ptr); }
      grown, home, returned := h'.grown, h'.home, returned + if back.Some? then multiset{back.value} else multiset{};
      assert Abs() == h';
    }

    /** Ordinal 5: every grown chunk, then the heap object itself, in the order they are given back. */
    method DeleteHeap() returns (released: seq<int>)
      requires Valid()
      modifies this
      ensures Abs() == Deleted(old(Abs())) && granted == returned
      ensures released == Nodes(base, old(grown))[1..] + [base]
    {
      hide HeapRep, Nodes, Bases;
      released := ReleaseAll(mem, base, Abs(), stale);
      BasesOfNodes(base, grown);
      returned := returned + multiset(released);
      grown := [];
    }

    /** Ordinal 8: the free bytes of every arena; the home arena's words are read even when it was never prepared. */
    method HeapTotalFreeSize() returns (total: int)
      requires Valid()
      ensures home.Some? ==> total == 8 * (FreeOf(grown) + FreeUnits(home.value.tiles))
      ensures 0 <= base + 2 < |mem| - 1 && (home.None? ==> total == 8 * FreeOf(grown) + ChunkSize(mem, base + 2))
    {
      hide HeapRep, A.Rep, A.StaleOk, ValidState;
      AtSentinel(mem, Abs(), stale);
      HeapParts(mem, Abs(), stale);
      total := 0;
      var node := mem[base + 1].next;
      ghost var i := 0;
      while true
        invariant 0 <= i <= |grown| && node == if i < |grown| then grown[i].base else base + 1
        invariant total + 8 * FreeOf(grown[i..]) == 8 * FreeOf(grown)
        decreases |grown| - i
      {
        AtNode(mem, Abs(), stale, i);
        SentinelIsLast(Abs(), i);
        if i < |grown| || home.Some? { ChunkSizeIsFree(mem, ViewAt(Abs(), i)); }
        total := total + ChunkSize(mem, node + 1);
        if node == base + 1 { break; }
        assert grown[i..][1..] == grown[i + 1..];
        node, i := mem[node].next, i + 1;
      }
    }

    /** A client writes a unit of a block it holds, past the header. */
    method WritePayload(ptr: int, offset: int, u: A.Unit, ghost i: int)
      requires Valid() && LiveIn(Abs(), i, ptr)
      requires 0 <= offset && offset + 1 < SizeAt(ViewAt(Abs(), i).tiles, ptr - 1) && ptr + offset < |mem|
      modifies this`mem
      ensures Valid() && 0 <= ptr + offset && mem == old(mem)[ptr + offset := u]
    {
      hide HeapRep, Balanced;
      PayloadKept(mem, Abs(), stale, i, ptr, offset, u);
      mem := mem[ptr + offset := u];
    }
  }

  /** A created heap's free size, before anything is allocated, is its home arena's without the header. */
  method FreeSizeAtFirst(heap: GrowableHeap, size: int) returns (total: int)
    requires heap.Valid() && Created(heap.Abs()) && 0x39 <= (size + 3) / 4 * 4
    requires HomeIs(heap.home, heap.base + 4, ((size + 3) / 4 * 4 - 0x20) / 8 - 1)
    ensures total == 8 * (((size + 3) / 4 * 4 - 0x20) / 8 - 1)
  {
    hide HeapRep, A.Rep;
    total := heap.HeapTotalFreeSize();
  }

  lemma AllocHeapFields(h: State, size: int, grant: Option<Grant>)
    requires ValidState(h) && 0 <= size < WORD
    ensures var h' := AllocHeap(h, size, grant).0;
      h'.base == h.base && h'.growth == h.growth && h'.returned == h.returned && SameHome(h, h')
  {
    hide Allocate, ValidView;
    if h.home.Some? {
      UnitsPositive(size);
      AllocateFacts(h.home.value, UnitsFor(size));
    }
  }

  lemma FreeHeapFields(h: State, ptr: int)
    requires ValidState(h)
    ensures var h' := FreeHeap(h, ptr).0;
      h'.base == h.base && h'.growth == h.growth && h'.granted == h.granted && SameHome(h, h')
  {
    hide Release, LiveAt, LiveUnits, ValidView;
    if h.home.Some? && LiveAt(h.home.value.tiles, ptr) { ReleaseFacts(h.home.value, ptr); }
  }

  ghost predicate SameHome(h: State, h': State) {
    h'.top == h.top && (h.home.Some? <==> h'.home.Some?)
    && (h.home.Some? ==> h'.home.value.sentinel == h.home.value.sentinel)
  }

  lemma StaleStays(m: Memory, m': Memory, h: State, h': State, stale: set<int>, stale': set<int>, grant: Option<Grant>)
    requires StaleInside(m, h, stale) && KeepsRest(m, m', h, grant) && SameHome(h, h') && stale' <= stale
    ensures StaleInside(m', h', stale')
  {
  }

  lemma StaleGrows(m: Memory, m': Memory, h: State, h': State, stale: set<int>, ptr: int)
    requires HeapRep(m, h, stale) && StaleInside(m, h, stale) && KeepsRest(m, m', h, None) && SameHome(h, h')
    requires !NoneLive(h, ptr)
    ensures StaleInside(m', h', stale + {ptr - 1})
  {
    hide HeapRep, LiveAt, ValidState, ValidView;
    HeapParts(m, h, stale);
    HomeEnds(h);
    var o := Owner(h.grown, ptr);
    LiveTag(m, h, stale, ptr, o);
    if o < |h.grown| {
      ChunkEnds(h, o);
      if h.home.Some? { ApartViews(h, o, |h.grown|); }
    }
  }
}
