/**
 The abstract view of a HEAPLIB arena: a sequence of tiles, each one free or live,
 that lie end to end between the first block and the sentinel.  Addresses and sizes
 are counted in the allocator's own eight-byte units.
 */
module HeapTiles {
  import opened Common

  // What HEAPLIB answers instead of zero.
  const BAD_ARENA := -4
  const OUT_OF_RANGE := -2
  const NOT_OWNED := -1
  const CORRUPTED := -3

  datatype Tile = Tile(addr: int, size: int, live: bool)

  /** What an arena holds; `rover` is where the next search starts. */
  datatype View = View(first: int, sentinel: int, tiles: seq<Tile>, rover: int)

  // ----- measures ------------------------------------------------------------

  function Units(ts: seq<Tile>): int {
    if ts == [] then 0 else ts[0].size + Units(ts[1..])
  }

  function LiveUnits(ts: seq<Tile>): int {
    if ts == [] then 0 else (if ts[0].live then ts[0].size else 0) + LiveUnits(ts[1..])
  }

  function FreeUnits(ts: seq<Tile>): int {
    if ts == [] then 0 else (if ts[0].live then 0 else ts[0].size) + FreeUnits(ts[1..])
  }

  /** The addresses of the free tiles, in order. */
  function FreeAddrs(ts: seq<Tile>): seq<int> {
    if ts == [] then [] else (if ts[0].live then [] else [ts[0].addr]) + FreeAddrs(ts[1..])
  }

  /** The tiles lie end to end, starting at `from`, and none is empty. */
  ghost predicate Contiguous(ts: seq<Tile>, from: int) {
    ts == [] || (ts[0].addr == from && ts[0].size > 0 && Contiguous(ts[1..], from + ts[0].size))
  }

  ghost predicate NoAdjacentFree(ts: seq<Tile>) {
    forall i, j :: 0 <= i < j < |ts| && j == i + 1 ==> ts[i].live || ts[j].live
  }

  /** The free list in address order: every free tile, then the sentinel. */
  function FreeList(v: View): (f: seq<int>)
    ensures |f| > 0 && f[|f| - 1] == v.sentinel
  {
    FreeAddrs(v.tiles) + [v.sentinel]
  }

  ghost predicate ValidView(v: View) {
    && v.first < v.sentinel
    && Contiguous(v.tiles, v.first)
    && v.first + Units(v.tiles) == v.sentinel
    && NoAdjacentFree(v.tiles)
    && v.rover in FreeList(v)
  }

  // ----- the measures over concatenation -------------------------------------

  lemma {:induction false} UnitsAppend(a: seq<Tile>, b: seq<Tile>)
    ensures Units(a + b) == Units(a) + Units(b)
  {
    if a == [] {
      assert a + b == b;
    } else {
      assert (a + b)[1..] == a[1..] + b;
      UnitsAppend(a[1..], b);
    }
  }

  lemma {:induction false} LiveAppend(a: seq<Tile>, b: seq<Tile>)
    ensures LiveUnits(a + b) == LiveUnits(a) + LiveUnits(b)
  {
    if a == [] {
      assert a + b == b;
    } else {
      assert (a + b)[1..] == a[1..] + b;
      LiveAppend(a[1..], b);
    }
  }

  lemma {:induction false} FreeAppend(a: seq<Tile>, b: seq<Tile>)
    ensures FreeUnits(a + b) == FreeUnits(a) + FreeUnits(b)
  {
    if a == [] {
      assert a + b == b;
    } else {
      assert (a + b)[1..] == a[1..] + b;
      FreeAppend(a[1..], b);
    }
  }

  lemma {:induction false} AddrsAppend(a: seq<Tile>, b: seq<Tile>)
    ensures FreeAddrs(a + b) == FreeAddrs(a) + FreeAddrs(b)
  {
    if a == [] {
      assert a + b == b;
    } else {
      assert (a + b)[1..] == a[1..] + b;
      AddrsAppend(a[1..], b);
    }
  }

  lemma MeasuresAppend(a: seq<Tile>, b: seq<Tile>)
    ensures Units(a + b) == Units(a) + Units(b)
    ensures LiveUnits(a + b) == LiveUnits(a) + LiveUnits(b)
    ensures FreeUnits(a + b) == FreeUnits(a) + FreeUnits(b)
    ensures FreeAddrs(a + b) == FreeAddrs(a) + FreeAddrs(b)
  {
    hide *;
    UnitsAppend(a, b);
    LiveAppend(a, b);
    FreeAppend(a, b);
    AddrsAppend(a, b);
  }

  lemma {:induction false} ContiguousAppend(a: seq<Tile>, b: seq<Tile>, from: int)
    ensures Contiguous(a + b, from) <==> Contiguous(a, from) && Contiguous(b, from + Units(a))
  {
    if a == [] {
      assert a + b == b;
    } else {
      assert (a + b)[1..] == a[1..] + b;
      ContiguousAppend(a[1..], b, from + a[0].size);
    }
  }

  lemma {:induction false} ContiguousBounds(ts: seq<Tile>, from: int)
    requires Contiguous(ts, from)
    ensures Units(ts) >= |ts|
    ensures forall i :: 0 <= i < |ts| ==>
      from <= ts[i].addr && 0 < ts[i].size && ts[i].addr + ts[i].size <= from + Units(ts)
    ensures forall x :: x in FreeAddrs(ts) ==> from <= x < from + Units(ts)
  {
    if ts != [] {
      ContiguousBounds(ts[1..], from + ts[0].size);
      forall i | 0 <= i < |ts|
        ensures from <= ts[i].addr && 0 < ts[i].size && ts[i].addr + ts[i].size <= from + Units(ts)
      {
        if i > 0 { assert ts[i] == ts[1..][i - 1]; }
      }
    }
  }

  /** Live and free units make up the whole arena. */
  lemma {:induction false} UnitsSplit(ts: seq<Tile>)
    ensures Units(ts) == LiveUnits(ts) + FreeUnits(ts)
  {
    if ts != [] { UnitsSplit(ts[1..]); }
  }

  /** A contiguous run has no live units exactly when it has no live tile. */
  lemma {:induction false} NothingLive(ts: seq<Tile>, from: int)
    requires Contiguous(ts, from)
    ensures LiveUnits(ts) >= 0
    ensures LiveUnits(ts) == 0 <==> forall t :: t in ts ==> !t.live
  {
    if ts != [] {
      NothingLive(ts[1..], from + ts[0].size);
      assert ts == [ts[0]] + ts[1..];
    }
  }

  /** Every unit between two ends of a contiguous run belongs to exactly one tile. */
  lemma {:induction false} TileOfUnit(ts: seq<Tile>, from: int, u: int) returns (k: int)
    requires Contiguous(ts, from) && from <= u < from + Units(ts)
    ensures 0 <= k < |ts| && ts[k].addr <= u < ts[k].addr + ts[k].size
    ensures forall j :: 0 <= j < |ts| && ts[j].addr <= u < ts[j].addr + ts[j].size ==> j == k
  {
    if u < from + ts[0].size {
      k := 0;
    } else {
      var r := TileOfUnit(ts[1..], from + ts[0].size, u);
      k := r + 1;
    }
    forall j | 0 <= j < |ts| && j != k
      ensures !(ts[j].addr <= u < ts[j].addr + ts[j].size)
    {
      if j < k { TilesOrdered(ts, from, j, k); } else { TilesOrdered(ts, from, k, j); }
    }
  }

  lemma Measures3(l: seq<Tile>, mid: seq<Tile>, r: seq<Tile>, from: int)
    ensures Contiguous(l + mid + r, from) <==>
            Contiguous(l, from) && Contiguous(mid, from + Units(l)) && Contiguous(r, from + Units(l) + Units(mid))
    ensures Units(l + mid + r) == Units(l) + Units(mid) + Units(r)
    ensures LiveUnits(l + mid + r) == LiveUnits(l) + LiveUnits(mid) + LiveUnits(r)
    ensures FreeAddrs(l + mid + r) == FreeAddrs(l) + FreeAddrs(mid) + FreeAddrs(r)
  {
    MeasuresAppend(l + mid, r);
    MeasuresAppend(l, mid);
    ContiguousAppend(l + mid, r, from);
    ContiguousAppend(l, mid, from);
  }

  lemma SingleMeasures(t: Tile, from: int)
    ensures Contiguous([t], from) <==> t.addr == from && t.size > 0
    ensures Units([t]) == t.size && LiveUnits([t]) == if t.live then t.size else 0
    ensures FreeAddrs([t]) == if t.live then [] else [t.addr]
  {
    assert [t][1..] == [];
  }

  /** Everything known about the tiles around index `i`. */
  lemma SplitAt(ts: seq<Tile>, from: int, i: int)
    requires Contiguous(ts, from) && 0 <= i < |ts|
    ensures Contiguous(ts[..i], from) && ts[i].addr == from + Units(ts[..i]) && ts[i].size > 0
    ensures Contiguous(ts[i + 1..], ts[i].addr + ts[i].size)
    ensures Units(ts) == Units(ts[..i]) + ts[i].size + Units(ts[i + 1..])
    ensures LiveUnits(ts) == LiveUnits(ts[..i]) + (if ts[i].live then ts[i].size else 0) + LiveUnits(ts[i + 1..])
    ensures FreeAddrs(ts) == FreeAddrs(ts[..i]) + (if ts[i].live then [] else [ts[i].addr]) + FreeAddrs(ts[i + 1..])
  {
    hide Contiguous, Units, LiveUnits, FreeAddrs;
    assert ts == ts[..i] + [ts[i]] + ts[i + 1..];
    Measures3(ts[..i], [ts[i]], ts[i + 1..], from);
    SingleMeasures(ts[i], from + Units(ts[..i]));
  }

  /** The free blocks before tile `i` are below it, the ones after it above. */
  lemma SplitBounds(ts: seq<Tile>, from: int, i: int)
    requires Contiguous(ts, from) && 0 <= i < |ts|
    ensures forall x :: x in FreeAddrs(ts[..i]) ==> from <= x < ts[i].addr
    ensures var r := ts[i + 1..]; forall x :: x in FreeAddrs(r) ==> ts[i].addr < x < from + Units(ts)
  {
    SplitAt(ts, from, i);
    ContiguousBounds(ts[..i], from);
    ContiguousBounds(ts[i + 1..], ts[i].addr + ts[i].size);
  }

  /** A free address names a free tile. */
  lemma {:induction false} TileOfFree(ts: seq<Tile>, x: int) returns (k: int)
    requires x in FreeAddrs(ts)
    ensures 0 <= k < |ts| && !ts[k].live && ts[k].addr == x
  {
    if !ts[0].live && ts[0].addr == x {
      k := 0;
    } else {
      var r := TileOfFree(ts[1..], x);
      k := r + 1;
      assert ts[k] == ts[1..][r];
    }
  }

  lemma {:induction false} FreeOfTile(ts: seq<Tile>, k: int)
    requires 0 <= k < |ts| && !ts[k].live
    ensures ts[k].addr in FreeAddrs(ts)
  {
    if k > 0 {
      assert ts[k] == ts[1..][k - 1];
      FreeOfTile(ts[1..], k - 1);
    }
  }

  /** Distinct tiles have distinct addresses, so an address names one tile. */
  lemma TilesOrdered(ts: seq<Tile>, from: int, i: int, j: int)
    requires Contiguous(ts, from) && 0 <= i < j < |ts|
    ensures ts[i].addr + ts[i].size <= ts[j].addr
  {
    SplitAt(ts, from, i);
    var r := ts[i + 1..];
    ContiguousBounds(r, ts[i].addr + ts[i].size);
    assert ts[j] == r[j - i - 1];
  }

  ghost predicate Increasing(f: seq<int>) {
    forall i, j :: 0 <= i < j < |f| ==> f[i] < f[j]
  }

  lemma {:induction false} FreeAddrsIncreasing(ts: seq<Tile>, from: int)
    requires Contiguous(ts, from)
    ensures Increasing(FreeAddrs(ts))
  {
    if ts != [] {
      FreeAddrsIncreasing(ts[1..], from + ts[0].size);
      ContiguousBounds(ts[1..], from + ts[0].size);
      var f, g := FreeAddrs(ts), FreeAddrs(ts[1..]);
      forall i, j | 0 <= i < j < |f|
        ensures f[i] < f[j]
      {
        if !ts[0].live {
          assert f[j] == g[j - 1];
          if i == 0 { assert g[j - 1] in g; } else { assert f[i] == g[i - 1]; }
        }
      }
    }
  }

  lemma FreeListIncreasing(v: View)
    requires ValidView(v)
    ensures Increasing(FreeList(v))
    ensures forall x :: x in FreeList(v) ==> v.first <= x <= v.sentinel
  {
    FreeAddrsIncreasing(v.tiles, v.first);
    ContiguousBounds(v.tiles, v.first);
    var f, g := FreeAddrs(v.tiles), FreeList(v);
    forall i, j | 0 <= i < j < |g|
      ensures g[i] < g[j]
    {
      assert g[i] == f[i] && f[i] in f;
    }
  }

  // ----- what the operations do to the view ------------------------------------

  /** The units HeapAlloc asks for, with the 32-bit sum wrapping as it does there. */
  function UnitsFor(requested: int): int {
    var n := if requested < 8 then 8 else requested;
    (n + 7) % WORD / 8 + 1
  }

  /** The payload covers the request exactly when the rounding does not wrap. */
  lemma PayloadCoversRequest(requested: int)
    requires 0 <= requested < WORD
    ensures UnitsFor(requested) >= 1
    ensures 8 * (UnitsFor(requested) - 1) >= requested <==> requested <= WORD - 8
  {
  }

  /** Take `units` from the tail of free tile `i`, or the whole tile when it fits exactly. */
  function Carve(ts: seq<Tile>, i: int, units: int): seq<Tile>
    requires 0 <= i < |ts|
  {
    ts[..i] + Carved(ts[i], units) + ts[i + 1..]
  }

  /** The address Carve hands out. */
  function CarvedAddr(ts: seq<Tile>, i: int, units: int): int
    requires 0 <= i < |ts|
  {
    ts[i].addr + ts[i].size - units
  }

  /** The tiles that replace tile `t` when `units` are carved from it. */
  function Carved(t: Tile, units: int): seq<Tile> {
    if t.size == units then [t.(live := true)]
    else [t.(size := t.size - units), Tile(t.addr + t.size - units, units, true)]
  }

  lemma CarvedMeasures(t: Tile, units: int)
    requires !t.live && 0 < units <= t.size
    ensures var mid := Carved(t, units);
      && Contiguous(mid, t.addr) && Units(mid) == t.size && LiveUnits(mid) == units
      && FreeAddrs(mid) == if t.size == units then [] else [t.addr]
  {
    var mid := Carved(t, units);
    if t.size != units {
      assert mid == [mid[0]] + [mid[1]];
      MeasuresAppend([mid[0]], [mid[1]]);
      ContiguousAppend([mid[0]], [mid[1]], t.addr);
    }
  }

  lemma CarveMeasures(ts: seq<Tile>, from: int, i: int, units: int)
    requires Contiguous(ts, from) && 0 <= i < |ts| && !ts[i].live
    requires 0 < units <= ts[i].size
    ensures Contiguous(Carve(ts, i, units), from) && Units(Carve(ts, i, units)) == Units(ts)
    ensures LiveUnits(Carve(ts, i, units)) == LiveUnits(ts) + units
    ensures FreeAddrs(Carve(ts, i, units)) ==
            FreeAddrs(ts[..i]) + (if ts[i].size == units then [] else [ts[i].addr]) + FreeAddrs(ts[i + 1..])
  {
    SplitAt(ts, from, i);
    CarvedMeasures(ts[i], units);
    Measures3(ts[..i], Carved(ts[i], units), ts[i + 1..], from);
  }

  lemma CarveValid(v: View, i: int, units: int, rover: int)
    requires ValidView(v) && 0 <= i < |v.tiles| && !v.tiles[i].live
    requires 0 < units <= v.tiles[i].size
    requires rover in FreeList(v) && rover != v.tiles[i].addr
    ensures ValidView(v.(tiles := Carve(v.tiles, i, units), rover := rover))
  {
    var v' := v.(tiles := Carve(v.tiles, i, units), rover := rover);
    CarveMeasures(v.tiles, v.first, i, units);
    CarveKeepsApart(v.tiles, i, units);
    assert rover in FreeList(v') by {
      SplitAt(v.tiles, v.first, i);
    }
  }

  lemma CarveKeepsApart(ts: seq<Tile>, i: int, units: int)
    requires NoAdjacentFree(ts) && 0 <= i < |ts| && !ts[i].live
    ensures NoAdjacentFree(Carve(ts, i, units))
  {
    var ts' := Carve(ts, i, units);
    var d := |ts'| - |ts|;
    forall g, k | 0 <= g < k < |ts'| && k == g + 1
      ensures ts'[g].live || ts'[k].live
    {
      if k < i {
        assert ts'[k - 1] == ts[k - 1] && ts'[k] == ts[k];
      } else if k == i {
        assert ts'[k - 1] == ts[k - 1] && !ts[i].live;
      } else if k > i + d + 1 {
        assert ts'[k] == ts[k - d] && ts'[k - 1] == ts[k - d - 1];
      }
    }
  }

  // ----- release -----------------------------------------------------------------

  predicate FreeAfter(ts: seq<Tile>, i: int)
    requires 0 <= i < |ts|
  {
    i + 1 < |ts| && !ts[i + 1].live
  }

  predicate FreeBefore(ts: seq<Tile>, i: int)
    requires 0 <= i < |ts|
  {
    0 < i && !ts[i - 1].live
  }

  /** Tile `i` together with a free tile after it. */
  function Gained(ts: seq<Tile>, i: int): int
    requires 0 <= i < |ts|
  {
    ts[i].size + if FreeAfter(ts, i) then ts[i + 1].size else 0
  }

  /** What lies before tile `i` once it is free: a free tile there absorbs it. */
  function ReleasedHead(ts: seq<Tile>, i: int): seq<Tile>
    requires 0 <= i < |ts|
  {
    if FreeBefore(ts, i)
    then ts[..i - 1] + [Tile(ts[i - 1].addr, ts[i - 1].size + Gained(ts, i), false)]
    else ts[..i] + [Tile(ts[i].addr, Gained(ts, i), false)]
  }

  function ReleasedTail(ts: seq<Tile>, i: int): seq<Tile>
    requires 0 <= i < |ts|
  {
    if FreeAfter(ts, i) then ts[i + 2..] else ts[i + 1..]
  }

  /** Free tile `i`, coalescing it with a free neighbour on either side. */
  function Released(ts: seq<Tile>, i: int): seq<Tile>
    requires 0 <= i < |ts|
  {
    ReleasedHead(ts, i) + ReleasedTail(ts, i)
  }

  lemma ReleasedTailMeasures(ts: seq<Tile>, from: int, i: int)
    requires Contiguous(ts, from) && 0 <= i < |ts|
    ensures var r := ReleasedTail(ts, i);
      && Contiguous(r, ts[i].addr + Gained(ts, i))
      && Gained(ts, i) + Units(r) == ts[i].size + Units(ts[i + 1..])
      && LiveUnits(r) == LiveUnits(ts[i + 1..])
      && FreeAddrs(ts[i + 1..]) == (if FreeAfter(ts, i) then [ts[i + 1].addr] else []) + FreeAddrs(r)
      && (FreeAfter(ts, i) ==> ts[i + 1].addr == ts[i].addr + ts[i].size)
  {
    SplitAt(ts, from, i);
    if FreeAfter(ts, i) {
      assert ts[i + 1..][1..] == ts[i + 2..];
    }
  }

  lemma SnocMeasures(l: seq<Tile>, t: Tile, from: int)
    ensures Contiguous(l + [t], from) <==> Contiguous(l, from) && t.addr == from + Units(l) && t.size > 0
    ensures Units(l + [t]) == Units(l) + t.size
    ensures LiveUnits(l + [t]) == LiveUnits(l) + if t.live then t.size else 0
    ensures FreeAddrs(l + [t]) == FreeAddrs(l) + if t.live then [] else [t.addr]
  {
    MeasuresAppend(l, [t]);
    ContiguousAppend(l, [t], from);
  }

  lemma ReleasedHeadMeasures(ts: seq<Tile>, from: int, i: int)
    requires Contiguous(ts, from) && 0 <= i < |ts| && Gained(ts, i) > 0
    ensures Contiguous(ReleasedHead(ts, i), from)
    ensures Units(ReleasedHead(ts, i)) == Units(ts[..i]) + Gained(ts, i)
    ensures LiveUnits(ReleasedHead(ts, i)) == LiveUnits(ts[..i])
    ensures FreeAddrs(ReleasedHead(ts, i)) == FreeAddrs(ts[..i]) + if FreeBefore(ts, i) then [] else [ts[i].addr]
    ensures FreeBefore(ts, i) ==>
            && ts[i - 1].addr + ts[i - 1].size == ts[i].addr
            && FreeAddrs(ts[..i]) == FreeAddrs(ts[..i - 1]) + [ts[i - 1].addr]
  {
    assert Contiguous(ts[..i], from) && ts[i].addr == from + Units(ts[..i]) by { SplitAt(ts, from, i); }
    if FreeBefore(ts, i) {
      assert ts[..i] == ts[..i - 1] + [ts[i - 1]];
      SnocMeasures(ts[..i - 1], ts[i - 1], from);
      SnocMeasures(ts[..i - 1], Tile(ts[i - 1].addr, ts[i - 1].size + Gained(ts, i), false), from);
    } else {
      SnocMeasures(ts[..i], Tile(ts[i].addr, Gained(ts, i), false), from);
    }
  }

  lemma GainedPositive(ts: seq<Tile>, from: int, i: int)
    requires Contiguous(ts, from) && 0 <= i < |ts|
    ensures Gained(ts, i) > 0
    ensures FreeAfter(ts, i) ==> i + 1 < |ts|
  {
    ContiguousBounds(ts, from);
  }

  lemma ReleasedMeasures(ts: seq<Tile>, from: int, i: int)
    requires Contiguous(ts, from) && 0 <= i < |ts| && ts[i].live
    ensures Contiguous(Released(ts, i), from) && Units(Released(ts, i)) == Units(ts)
    ensures LiveUnits(Released(ts, i)) == LiveUnits(ts) - ts[i].size
    ensures FreeAddrs(Released(ts, i)) == FreeAddrs(ReleasedHead(ts, i)) + FreeAddrs(ReleasedTail(ts, i))
  {
    var h, r := ReleasedHead(ts, i), ReleasedTail(ts, i);
    MeasuresAppend(h, r);
    ContiguousAppend(h, r, from);
    assert Gained(ts, i) > 0 by { ContiguousBounds(ts, from); }
    ReleasedTailMeasures(ts, from, i);
    ReleasedHeadMeasures(ts, from, i);
    assert ts[i].addr == from + Units(ts[..i])
      && Units(ts) == Units(ts[..i]) + ts[i].size + Units(ts[i + 1..])
      && LiveUnits(ts) == LiveUnits(ts[..i]) + ts[i].size + LiveUnits(ts[i + 1..]) by {
      SplitAt(ts, from, i);
    }
  }

  lemma ReleasedKeepsApart(ts: seq<Tile>, i: int)
    requires NoAdjacentFree(ts) && 0 <= i < |ts|
    ensures NoAdjacentFree(Released(ts, i))
  {
    var h, r := ReleasedHead(ts, i), ReleasedTail(ts, i);
    var ts' := Released(ts, i);
    var d := |ts| - |r|;
    forall g, k | 0 <= g < k < |ts'| && k == g + 1
      ensures ts'[g].live || ts'[k].live
    {
      if k < |h| - 1 {
        assert ts'[k - 1] == ts[k - 1] && ts'[k] == ts[k];
      } else if k == |h| - 1 {
        assert ts'[k - 1] == ts[k - 1];
        if FreeBefore(ts, i) { assert !ts[k].live; }
      } else if k == |h| {
        assert ts'[k] == ts[d];
        if FreeAfter(ts, i) { assert !ts[i + 1].live; }
      } else {
        assert ts'[k] == ts[k - |h| + d] && ts'[k - 1] == ts[k - 1 - |h| + d];
      }
    }
  }

  /** The free block before tile `i` in the ring: the last one below it, or the sentinel. */
  function Predecessor(v: View, i: int): int
    requires 0 <= i < |v.tiles|
  {
    var f := FreeAddrs(v.tiles[..i]);
    if f == [] then v.sentinel else f[|f| - 1]
  }

  lemma ReleasedValid(v: View, i: int)
    requires ValidView(v) && 0 <= i < |v.tiles| && v.tiles[i].live
    ensures ValidView(v.(tiles := Released(v.tiles, i), rover := Predecessor(v, i)))
  {
    ReleasedMeasures(v.tiles, v.first, i);
    ReleasedKeepsApart(v.tiles, i);
    assert Gained(v.tiles, i) > 0 by { ContiguousBounds(v.tiles, v.first); }
    ReleasedHeadMeasures(v.tiles, v.first, i);
  }

  // ----- the two operations on a view ------------------------------------------------

  /** The index of the tile at `x`, or `|ts|` when none starts there. */
  function TileAt(ts: seq<Tile>, x: int): (i: int)
    ensures 0 <= i <= |ts|
    ensures i < |ts| ==> ts[i].addr == x
  {
    if ts == [] || ts[0].addr == x then 0 else 1 + TileAt(ts[1..], x)
  }

  /** The size at a free-list address; the sentinel has no tile and size zero. */
  function SizeAt(ts: seq<Tile>, x: int): int {
    var i := TileAt(ts, x);
    if i < |ts| then ts[i].size else 0
  }

  lemma TileAtUnique(ts: seq<Tile>, from: int, i: int)
    requires Contiguous(ts, from) && 0 <= i < |ts|
    ensures TileAt(ts, ts[i].addr) == i
  {
    TileAtBound(ts, i);
    var j := TileAt(ts, ts[i].addr);
    ContiguousBounds(ts, from);
    if j < i { TilesOrdered(ts, from, j, i); }
  }

  lemma {:induction false} TileAtBound(ts: seq<Tile>, i: int)
    requires 0 <= i < |ts|
    ensures TileAt(ts, ts[i].addr) <= i
  {
    if i > 0 && ts[0].addr != ts[i].addr {
      assert ts[i] == ts[1..][i - 1];
      TileAtBound(ts[1..], i - 1);
    }
  }

  lemma SentinelSize(v: View)
    requires ValidView(v)
    ensures TileAt(v.tiles, v.sentinel) == |v.tiles| && SizeAt(v.tiles, v.sentinel) == 0
  {
    ContiguousBounds(v.tiles, v.first);
  }

  /** The first position of `x`, or `|f|`. */
  function IndexOf(f: seq<int>, x: int): (i: int)
    ensures 0 <= i <= |f|
    ensures if x in f then i < |f| && f[i] == x else i == |f|
  {
    if f == [] || f[0] == x then 0 else 1 + IndexOf(f[1..], x)
  }

  /** The free list in the order HeapAlloc visits it: after the rover, round to the rover. */
  function Rotation(v: View): (rot: seq<int>)
    ensures |rot| == |FreeList(v)| && (v.rover in FreeList(v) ==> rot[|rot| - 1] == v.rover)
    ensures multiset(rot) == multiset(FreeList(v))
  {
    var f := FreeList(v);
    var r := if v.rover in f then IndexOf(f, v.rover) + 1 else 0;
    assert f == f[..r] + f[r..];
    f[r..] + f[..r]
  }

  /** How many blocks of `rot` are passed over before one of `units` or more. */
  function FirstFit(ts: seq<Tile>, rot: seq<int>, units: int): (k: int)
    ensures 0 <= k <= |rot|
    ensures k < |rot| ==> SizeAt(ts, rot[k]) >= units
    ensures forall j :: 0 <= j < k ==> SizeAt(ts, rot[j]) < units
  {
    if rot == [] || SizeAt(ts, rot[0]) >= units then 0 else 1 + FirstFit(ts, rot[1..], units)
  }

  function Cyclic(k: int, n: int): int {
    if k == 0 then n - 1 else k - 1
  }

  /** Next fit: the new view and the pointer handed out, one unit past the header. */
  function Allocate(v: View, units: int): (r: (View, Option<int>))
    ensures r.0.first == v.first && r.0.sentinel == v.sentinel && (r.1.None? ==> r.0 == v)
  {
    var rot := Rotation(v);
    var k := FirstFit(v.tiles, rot, units);
    if k == |rot| || TileAt(v.tiles, rot[k]) == |v.tiles| then (v, None) else
    var i := TileAt(v.tiles, rot[k]);
    (v.(tiles := Carve(v.tiles, i, units), rover := rot[Cyclic(k, |rot|)]),
     Some(CarvedAddr(v.tiles, i, units) + 1))
  }

  /** Where a search that has passed `k` blocks over ends. */
  lemma AllocateAt(v: View, units: int, k: int)
    requires ValidView(v) && units > 0 && 0 <= k < |Rotation(v)|
    requires SizeAt(v.tiles, Rotation(v)[k]) >= units
    requires forall j :: 0 <= j < k ==> SizeAt(v.tiles, Rotation(v)[j]) < units
    ensures var rot := Rotation(v); var p := rot[k]; var prev := rot[Cyclic(k, |rot|)];
      var i := TileAt(v.tiles, p);
      && i < |v.tiles| && !v.tiles[i].live && v.tiles[i].addr == p && units <= v.tiles[i].size
      && prev in FreeList(v) && prev != p
      && Allocate(v, units) ==
         (v.(tiles := Carve(v.tiles, i, units), rover := prev), Some(CarvedAddr(v.tiles, i, units) + 1))
  {
    var rot := Rotation(v);
    assert k == FirstFit(v.tiles, rot, units);
    PickIsFree(v, units);
  }

  lemma AllocateNone(v: View, units: int)
    requires ValidView(v) && units > 0
    requires forall j :: 0 <= j < |Rotation(v)| ==> SizeAt(v.tiles, Rotation(v)[j]) < units
    ensures Allocate(v, units) == (v, None)
  {
  }

  /** A pointer names a live block. */
  predicate LiveAt(ts: seq<Tile>, ptr: int) {
    var i := TileAt(ts, ptr - 1);
    i < |ts| && ts[i].live
  }

  /** Free the live block that `ptr` names. */
  function Release(v: View, ptr: int): View
    requires LiveAt(v.tiles, ptr)
  {
    var i := TileAt(v.tiles, ptr - 1);
    v.(tiles := Released(v.tiles, i), rover := Predecessor(v, i))
  }

  /** A freshly prepared arena of `n` units and a sentinel. */
  function Fresh(first: int, n: int): View {
    View(first, first + n, [Tile(first, n, false)], first)
  }

  lemma FreshValid(first: int, n: int)
    requires n > 0
    ensures ValidView(Fresh(first, n)) && LiveUnits(Fresh(first, n).tiles) == 0
  {
  }

  lemma Tiled(v: View)
    requires ValidView(v)
    ensures v.first < v.sentinel && Contiguous(v.tiles, v.first) && v.first + Units(v.tiles) == v.sentinel
    ensures v.rover in FreeList(v)
  {
  }

  /** A block chosen from the free list is a real free tile, and its ring predecessor another block. */
  lemma PickIsFree(v: View, units: int)
    requires ValidView(v) && units > 0
    ensures var rot := Rotation(v); var k := FirstFit(v.tiles, rot, units);
      k < |rot| ==>
        var i := TileAt(v.tiles, rot[k]);
        && i < |v.tiles| && !v.tiles[i].live && v.tiles[i].addr == rot[k] && units <= v.tiles[i].size
        && rot[Cyclic(k, |rot|)] in FreeList(v) && rot[Cyclic(k, |rot|)] != rot[k]
  {
    var rot := Rotation(v);
    var k := FirstFit(v.tiles, rot, units);
    if k < |rot| {
      assert rot[k] in multiset(rot);
      assert rot[k] in FreeList(v);
      SentinelSize(v);
      var i := TileOfFree(v.tiles, rot[k]);
      TileAtUnique(v.tiles, v.first, i);
      assert rot[Cyclic(k, |rot|)] in multiset(rot);
      FreeListIncreasing(v);
      RotationDistinct(v);
    }
  }

  lemma RotationDistinct(v: View)
    requires ValidView(v)
    ensures forall i, j :: 0 <= i < j < |Rotation(v)| ==> Rotation(v)[i] != Rotation(v)[j]
  {
    FreeListIncreasing(v);
    var r := RotationIs(v);
    hide ValidView, Rotation, FreeList;
  }

  /** Allocation keeps the arena well formed and adds exactly `units` to the live total. */
  lemma AllocateValid(v: View, units: int)
    requires ValidView(v) && units > 0
    ensures ValidView(Allocate(v, units).0)
    ensures LiveUnits(Allocate(v, units).0.tiles) ==
      LiveUnits(v.tiles) + if Allocate(v, units).1.Some? then units else 0
  {
    PickIsFree(v, units);
    var rot := Rotation(v);
    var k := FirstFit(v.tiles, rot, units);
    if k < |rot| {
      var i := TileAt(v.tiles, rot[k]);
      CarveValid(v, i, units, rot[Cyclic(k, |rot|)]);
      CarveMeasures(v.tiles, v.first, i, units);
    }
  }

  /** Null is answered exactly when no free block is large enough. */
  lemma AllocateRefusesIff(v: View, units: int)
    requires ValidView(v) && units > 0
    ensures Allocate(v, units).1.None? <==> forall t :: t in v.tiles && !t.live ==> t.size < units
  {
    hide ValidView, Rotation, FreeList, SizeAt, Carve, CarvedAddr;
    PickIsFree(v, units);
    var rot := Rotation(v);
    var k := FirstFit(v.tiles, rot, units);
    if k == |rot| {
      forall t | t in v.tiles && !t.live
        ensures t.size < units
      {
        var i :| 0 <= i < |v.tiles| && v.tiles[i] == t;
        var j := FreeIsVisited(v, i);
      }
    }
  }

  /** Every free block is met on the way round. */
  lemma FreeIsVisited(v: View, i: int) returns (j: int)
    requires ValidView(v) && 0 <= i < |v.tiles| && !v.tiles[i].live
    ensures 0 <= j < |Rotation(v)| && SizeAt(v.tiles, Rotation(v)[j]) == v.tiles[i].size
  {
    var rot := Rotation(v);
    FreeOfTile(v.tiles, i);
    assert v.tiles[i].addr in multiset(FreeList(v));
    j :| 0 <= j < |rot| && rot[j] == v.tiles[i].addr;
    TileAtUnique(v.tiles, v.first, i);
  }

  /** How far round the ring from the rover an address is; the rover itself comes last. */
  ghost function Round(v: View, x: int): int {
    if x > v.rover then x - v.rover else x - v.rover + (v.sentinel - v.first) + 1
  }

  lemma RotationIs(v: View) returns (r: int)
    requires ValidView(v)
    ensures |Rotation(v)| == |FreeList(v)| && 0 < r <= |FreeList(v)| && FreeList(v)[r - 1] == v.rover
    ensures forall i :: 0 <= i < |Rotation(v)| ==>
      Rotation(v)[i] == FreeList(v)[if i + r < |FreeList(v)| then i + r else i + r - |FreeList(v)|]
  {
    r := IndexOf(FreeList(v), v.rover) + 1;
  }

  lemma FreeListBounds(v: View)
    requires ValidView(v)
    ensures forall k :: 0 <= k < |FreeList(v)| ==> v.first <= FreeList(v)[k] <= v.sentinel
  {
    FreeListIncreasing(v);
    assert forall k :: 0 <= k < |FreeList(v)| ==> FreeList(v)[k] in FreeList(v);
  }

  lemma RotationAscends(v: View, i: int, j: int)
    requires ValidView(v) && 0 <= i < j < |Rotation(v)|
    ensures 0 < Round(v, Rotation(v)[i]) < Round(v, Rotation(v)[j]) <= v.sentinel - v.first + 1
  {
    hide ValidView, Rotation, FreeList;
    FreeListIncreasing(v);
    FreeListBounds(v);
    var r := RotationIs(v);
    var n := |FreeList(v)|;
    var a, b := if i + r < n then i + r else i + r - n, if j + r < n then j + r else j + r - n;
    assert FreeList(v)[a] > v.rover <==> a >= r;
    assert FreeList(v)[b] > v.rover <==> b >= r;
  }

  /**
   Which block is served: of the free blocks large enough, the first one met going up from the rover and round,
   from its top end; the rover is left on the free block, or the sentinel, next before it in the ring.
   */
  lemma NextFit(v: View, units: int)
    requires ValidView(v) && units > 0 && Allocate(v, units).1.Some?
    ensures var (w, r) := Allocate(v, units);
      exists t :: t in v.tiles && !t.live && t.size >= units && Serves(v, w, r.value, t, units)
  {
    hide ValidView, Rotation, FreeList, Carve, CarvedAddr, Round;
    PickIsFree(v, units);
    var rot := Rotation(v);
    var k := FirstFit(v.tiles, rot, units);
    var i := TileAt(v.tiles, rot[k]);
    var t := v.tiles[i];
    assert t in v.tiles;
    CarvedFromTop(v, i, units);
    forall u | u in v.tiles && !u.live && u.size >= units
      ensures Round(v, t.addr) <= Round(v, u.addr)
    {
      var m :| 0 <= m < |v.tiles| && v.tiles[m] == u;
      var j := PlaceOf(v, m);
      if k < j { RotationAscends(v, k, j); }
    }
    RoverBefore(v, k);
    assert Serves(v, Allocate(v, units).0, Allocate(v, units).1.value, t, units);
  }

  ghost predicate Serves(v: View, w: View, ptr: int, t: Tile, units: int) {
    && ptr == t.addr + t.size - units + 1
    && (forall u :: u in v.tiles && !u.live && u.size >= units ==> Round(v, t.addr) <= Round(v, u.addr))
    && w.rover in FreeList(v)
    && (forall x :: x in FreeList(v) && x != t.addr ==> Behind(v, t.addr, x) >= Behind(v, t.addr, w.rover))
  }

  /** How far back round the ring from `a` an address is. */
  ghost function Behind(v: View, a: int, x: int): int {
    if x < a then a - x else a - x + (v.sentinel - v.first) + 1
  }

  lemma CarvedFromTop(v: View, i: int, units: int)
    requires ValidView(v) && 0 <= i < |v.tiles| && 0 < units <= v.tiles[i].size
    ensures CarvedAddr(v.tiles, i, units) == v.tiles[i].addr + v.tiles[i].size - units
  {
  }

  /** Where a free tile is met on the way round. */
  lemma PlaceOf(v: View, i: int) returns (j: int)
    requires ValidView(v) && 0 <= i < |v.tiles| && !v.tiles[i].live
    ensures 0 <= j < |Rotation(v)| && Rotation(v)[j] == v.tiles[i].addr
    ensures SizeAt(v.tiles, Rotation(v)[j]) == v.tiles[i].size
  {
    var rot := Rotation(v);
    FreeOfTile(v.tiles, i);
    assert v.tiles[i].addr in multiset(FreeList(v));
    j :| 0 <= j < |rot| && rot[j] == v.tiles[i].addr;
    TileAtUnique(v.tiles, v.first, i);
  }

  lemma RoverBefore(v: View, k: int)
    requires ValidView(v) && 0 <= k < |Rotation(v)|
    ensures var rot := Rotation(v); var prev := rot[Cyclic(k, |rot|)];
      prev in FreeList(v)
      && forall x :: x in FreeList(v) && x != rot[k] ==> Behind(v, rot[k], x) >= Behind(v, rot[k], prev)
  {
    var rot, f := Rotation(v), FreeList(v);
    var c := Cyclic(k, |rot|);
    assert rot[c] in multiset(rot);
    hide ValidView, Rotation, FreeList, Round, Behind;
    forall x | x in f && x != rot[k]
      ensures Behind(v, rot[k], x) >= Behind(v, rot[k], rot[c])
    {
      assert x in multiset(rot);
      var j :| 0 <= j < |rot| && rot[j] == x;
      BehindIs(v, k, j);
      BehindIs(v, k, c);
      if j < c { RotationAscends(v, j, c); } else if c < j { RotationAscends(v, c, j); }
      if j < k { RotationAscends(v, j, k); } else { RotationAscends(v, k, j); }
    }
  }

  lemma BehindIs(v: View, k: int, j: int)
    requires ValidView(v) && 0 <= k < |Rotation(v)| && 0 <= j < |Rotation(v)| && j != k
    ensures var a, x := Rotation(v)[k], Rotation(v)[j];
      Behind(v, a, x) == Round(v, a) - Round(v, x) + if j < k then 0 else v.sentinel - v.first + 1
  {
    if j < k { RotationAscends(v, j, k); } else { RotationAscends(v, k, j); }
    FreeListBounds(v);
    var r := RotationIs(v);
    hide ValidView, Rotation;
  }

  lemma ReleaseValid(v: View, ptr: int)
    requires ValidView(v) && LiveAt(v.tiles, ptr)
    ensures ValidView(Release(v, ptr))
    ensures LiveUnits(Release(v, ptr).tiles) == LiveUnits(v.tiles) - SizeAt(v.tiles, ptr - 1)
  {
    var i := TileAt(v.tiles, ptr - 1);
    ReleasedValid(v, i);
    ReleasedMeasures(v.tiles, v.first, i);
  }

  /** A release leaves the rover on the free block, or the sentinel, next before the released one in the ring. */
  lemma ReleaseRover(v: View, ptr: int)
    requires ValidView(v) && LiveAt(v.tiles, ptr)
    ensures var w := Release(v, ptr);
      && w.rover in FreeList(v)
      && forall x :: x in FreeList(v) ==> Behind(v, ptr - 1, x) >= Behind(v, ptr - 1, w.rover)
  {
    var i := TileAt(v.tiles, ptr - 1);
    FreeAround(v, i);
    FreeListIncreasing(v);
    hide ValidView, FreeList, LiveAt, Contiguous, FreeAddrs;
    var f := FreeAddrs(v.tiles[..i]);
    forall x | x in FreeList(v)
      ensures Behind(v, ptr - 1, x) >= Behind(v, ptr - 1, Predecessor(v, i))
    {
      if x in f {
        var j :| 0 <= j < |f| && f[j] == x;
      }
    }
  }

  /** The free list below and above a tile. */
  lemma FreeAround(v: View, i: int)
    requires ValidView(v) && 0 <= i < |v.tiles|
    ensures var f, a := FreeAddrs(v.tiles[..i]), v.tiles[i].addr;
      && v.first <= a < v.sentinel && Increasing(f) && (f != [] ==> f[|f| - 1] in f)
      && v.sentinel in FreeList(v)
      && forall x :: (x in f ==> x in FreeList(v) && v.first <= x < a) && (x in FreeList(v) && x !in f ==> x >= a)
  {
    var a, b := v.tiles[..i], v.tiles[i..];
    assert v.tiles == a + b;
    MeasuresAppend(a, b);
    ContiguousAppend(a, b, v.first);
    ContiguousBounds(a, v.first);
    ContiguousBounds(b, v.first + Units(a));
    FreeAddrsIncreasing(a, v.first);
    assert b[0].addr == v.first + Units(a);
    hide Contiguous, FreeAddrs, Units;
    assert FreeList(v) == FreeAddrs(a) + FreeAddrs(b) + [v.sentinel];
  }

  // ----- the blocks a client holds ----------------------------------------------------------

  /** A live block of `size` units whose pointer is `q`. */
  predicate Block(v: View, q: int, size: int) {
    Tile(q - 1, size, true) in v.tiles
  }

  predicate Disjoint(q: int, size: int, p: int, units: int) {
    q - 1 + size <= p - 1 || p - 1 + units <= q - 1
  }

  /** An allocation: `r` names a new block of `units`, and the blocks held before stay, none of them touching it. */
  ghost predicate Issues(v: View, w: View, r: Option<int>, units: int) {
    && (r.Some? ==> LiveAt(w.tiles, r.value) && SizeAt(w.tiles, r.value - 1) == units && !LiveAt(v.tiles, r.value))
    && (forall q :: LiveAt(w.tiles, q) <==> LiveAt(v.tiles, q) || r == Some(q))
    && (forall q :: LiveAt(v.tiles, q) ==> SizeAt(w.tiles, q - 1) == SizeAt(v.tiles, q - 1))
    && (r.Some? ==> forall q :: LiveAt(v.tiles, q) ==> Disjoint(q, SizeAt(v.tiles, q - 1), r.value, units))
  }

  /** A release: the block is gone, and the others stay. */
  ghost predicate Frees(v: View, w: View, ptr: int) {
    && (forall q :: LiveAt(w.tiles, q) <==> LiveAt(v.tiles, q) && q != ptr)
    && (forall q :: LiveAt(w.tiles, q) ==> SizeAt(w.tiles, q - 1) == SizeAt(v.tiles, q - 1))
  }

  /** A pointer is live exactly when it is a block's, of the size its header says. */
  lemma BlockAt(v: View, q: int)
    requires ValidView(v)
    ensures LiveAt(v.tiles, q) ==> Block(v, q, SizeAt(v.tiles, q - 1))
    ensures forall size :: Block(v, q, size) ==> LiveAt(v.tiles, q) && size == SizeAt(v.tiles, q - 1)
  {
    forall size | Block(v, q, size)
      ensures LiveAt(v.tiles, q) && size == SizeAt(v.tiles, q - 1)
    {
      var k :| 0 <= k < |v.tiles| && v.tiles[k] == Tile(q - 1, size, true);
      TileAtUnique(v.tiles, v.first, k);
    }
  }

  lemma BlockInside(v: View, q: int, size: int)
    requires ValidView(v) && Block(v, q, size)
    ensures v.first <= q - 1 && q - 1 + size <= v.sentinel && size > 0
  {
    ContiguousBounds(v.tiles, v.first);
  }

  lemma BlocksApart(v: View, q: int, size: int, p: int, units: int)
    requires ValidView(v) && Block(v, q, size) && Block(v, p, units) && q != p
    ensures Disjoint(q, size, p, units)
  {
    var j :| 0 <= j < |v.tiles| && v.tiles[j] == Tile(q - 1, size, true);
    var k :| 0 <= k < |v.tiles| && v.tiles[k] == Tile(p - 1, units, true);
    if j < k { TilesOrdered(v.tiles, v.first, j, k); } else { TilesOrdered(v.tiles, v.first, k, j); }
  }

  /** Carving adds one live tile. */
  lemma CarveBlocks(ts: seq<Tile>, i: int, units: int, t: Tile)
    requires 0 <= i < |ts| && !ts[i].live && t.live
    ensures t in Carve(ts, i, units) <==> t in ts || t == Tile(CarvedAddr(ts, i, units), units, true)
  {
    assert ts == ts[..i] + [ts[i]] + ts[i + 1..];
    assert t in Carved(ts[i], units) <==> t == Tile(CarvedAddr(ts, i, units), units, true);
  }

  /** Releasing takes one live tile away. */
  lemma ReleasedBlocks(ts: seq<Tile>, from: int, i: int, t: Tile)
    requires Contiguous(ts, from) && 0 <= i < |ts| && t.live && ts[i].live
    ensures t in Released(ts, i) <==> t in ts && t != ts[i]
  {
    var head := if FreeBefore(ts, i) then ts[..i - 1] else ts[..i];
    assert ts == ts[..i] + [ts[i]] + ts[i + 1..];
    assert FreeBefore(ts, i) ==> ts[..i] == ts[..i - 1] + [ts[i - 1]];
    assert FreeAfter(ts, i) ==> ts[i + 1..] == [ts[i + 1]] + ts[i + 2..];
    assert t in ReleasedHead(ts, i) <==> t in ts[..i];
    assert t in ReleasedTail(ts, i) <==> t in ts[i + 1..];
    ContiguousBounds(ts, from);
    forall k | 0 <= k < |ts| && k != i
      ensures ts[k] != ts[i]
    {
      if k < i { TilesOrdered(ts, from, k, i); } else { TilesOrdered(ts, from, i, k); }
    }
  }

  lemma AllocateBlocks(v: View, units: int, q: int, size: int)
    requires ValidView(v) && units > 0
    ensures var (w, r) := Allocate(v, units);
      && (Block(w, q, size) <==> Block(v, q, size) || (r == Some(q) && size == units))
      && (r == Some(q) ==> !Block(v, q, size))
  {
    hide ValidView, Carve, CarvedAddr;
    PickIsFree(v, units);
    var rot := Rotation(v);
    var k := FirstFit(v.tiles, rot, units);
    if k < |rot| {
      var i := TileAt(v.tiles, rot[k]);
      CarveBlocks(v.tiles, i, units, Tile(q - 1, size, true));
      CarvedIsNew(v, i, units, q, size);
    }
  }

  /** The block carved starts inside a free one. */
  lemma CarvedIsNew(v: View, i: int, units: int, q: int, size: int)
    requires ValidView(v) && 0 <= i < |v.tiles| && !v.tiles[i].live && 0 < units <= v.tiles[i].size
    ensures q - 1 == CarvedAddr(v.tiles, i, units) ==> !Block(v, q, size)
  {
    ContiguousBounds(v.tiles, v.first);
    if Block(v, q, size) {
      var k :| 0 <= k < |v.tiles| && v.tiles[k] == Tile(q - 1, size, true);
      if k < i { TilesOrdered(v.tiles, v.first, k, i); } else { TilesOrdered(v.tiles, v.first, i, k); }
    }
  }

  lemma ReleaseBlocks(v: View, ptr: int, q: int, size: int)
    requires ValidView(v) && LiveAt(v.tiles, ptr)
    ensures Block(Release(v, ptr), q, size) <==> Block(v, q, size) && q != ptr
  {
    var i := TileAt(v.tiles, ptr - 1);
    ReleasedBlocks(v.tiles, v.first, i, Tile(q - 1, size, true));
    BlockAt(v, q);
    hide ValidView, Released;
  }

  /** What an allocation hands out is a live block of the units asked for, apart from every block held. */
  lemma AllocateIssues(v: View, units: int)
    requires ValidView(v) && units > 0
    ensures Issues(v, Allocate(v, units).0, Allocate(v, units).1, units)
  {
    hide Allocate, ValidView, LiveAt, SizeAt, Block;
    var (w, r) := Allocate(v, units);
    AllocateValid(v, units);
    forall q
      ensures LiveAt(w.tiles, q) <==> LiveAt(v.tiles, q) || r == Some(q)
      ensures LiveAt(v.tiles, q) ==> SizeAt(w.tiles, q - 1) == SizeAt(v.tiles, q - 1)
      ensures r == Some(q) ==> SizeAt(w.tiles, q - 1) == units && !LiveAt(v.tiles, q)
    {
      BlockAt(v, q);
      BlockAt(w, q);
      AllocateBlocks(v, units, q, SizeAt(v.tiles, q - 1));
      AllocateBlocks(v, units, q, SizeAt(w.tiles, q - 1));
      AllocateBlocks(v, units, q, units);
    }
    forall q | r.Some? && LiveAt(v.tiles, q)
      ensures Disjoint(q, SizeAt(v.tiles, q - 1), r.value, units)
    {
      BlockAt(w, q);
      BlockAt(w, r.value);
      BlocksApart(w, q, SizeAt(w.tiles, q - 1), r.value, units);
    }
  }

  /** A release takes its own block from the client, and no other. */
  lemma ReleaseFrees(v: View, ptr: int)
    requires ValidView(v) && LiveAt(v.tiles, ptr)
    ensures Frees(v, Release(v, ptr), ptr)
  {
    hide Release, ValidView, LiveAt, SizeAt, Block;
    var w := Release(v, ptr);
    ReleaseValid(v, ptr);
    forall q
      ensures LiveAt(w.tiles, q) <==> LiveAt(v.tiles, q) && q != ptr
      ensures LiveAt(w.tiles, q) ==> SizeAt(w.tiles, q - 1) == SizeAt(v.tiles, q - 1)
    {
      BlockAt(v, q);
      BlockAt(w, q);
      ReleaseBlocks(v, ptr, q, SizeAt(v.tiles, q - 1));
      ReleaseBlocks(v, ptr, q, SizeAt(w.tiles, q - 1));
    }
  }

  // ----- whole runs ---------------------------------------------------------------------

  datatype Op = Alloc(requested: int) | Free(ptr: int)

  /** One call; freeing a pointer that names no live block leaves the arena alone. */
  function Step(v: View, op: Op): View
    requires ValidView(v)
  {
    match op
    case Alloc(n) => if 0 <= n < WORD then Allocate(v, UnitsFor(n)).0 else v
    case Free(p) => if LiveAt(v.tiles, p) then Release(v, p) else v
  }

  lemma StepValid(v: View, op: Op)
    requires ValidView(v)
    ensures ValidView(Step(v, op)) && Step(v, op).first == v.first && Step(v, op).sentinel == v.sentinel
  {
    match op
    case Alloc(n) => if 0 <= n < WORD { AllocateValid(v, UnitsFor(n)); }
    case Free(p) => if LiveAt(v.tiles, p) { ReleaseValid(v, p); }
  }

  /** Every run of calls keeps the arena exactly tiled, ordered and coalesced. */
  function Run(v: View, ops: seq<Op>): (w: View)
    requires ValidView(v)
    ensures ValidView(w) && w.first == v.first && w.sentinel == v.sentinel
    decreases |ops|
  {
    if ops == [] then v else (StepValid(v, ops[0]); Run(Step(v, ops[0]), ops[1..]))
  }

  lemma TwoFreeTouch(ts: seq<Tile>)
    requires |ts| > 1 && forall t :: t in ts ==> !t.live
    ensures !NoAdjacentFree(ts)
  {
    assert ts[0] in ts && ts[1] in ts;
    assert !ts[1 - 1].live && !ts[1].live;
  }

  /** With nothing live and no two free blocks adjacent, one block fills the arena. */
  lemma AllFreeIsOne(w: View)
    requires ValidView(w) && forall t :: t in w.tiles ==> !t.live
    ensures w.tiles == [Tile(w.first, w.sentinel - w.first, false)]
  {
    if |w.tiles| > 1 { TwoFreeTouch(w.tiles); }
    var t := w.tiles[0];
    assert w.tiles == [t] && t in w.tiles;
    assert Units([t]) == t.size;
  }

  /** However the blocks were freed, an arena with none live is one free block again. */
  lemma AllFreedIsFresh(first: int, n: int, ops: seq<Op>)
    requires n > 0
    ensures ValidView(Fresh(first, n))
    ensures var w := Run(Fresh(first, n), ops);
      (forall t :: t in w.tiles ==> !t.live) ==> w.tiles == Fresh(first, n).tiles
  {
    hide ValidView, Run;
    FreshValid(first, n);
    var w := Run(Fresh(first, n), ops);
    if forall t :: t in w.tiles ==> !t.live { AllFreeIsOne(w); }
  }
}
