/**
 The relocation pipeline: `tools/mkirx.py` re-orders a linker's REL entries, and the loader of
 `src/iop/loader.hpp` applies them holding one HI16 at a time.
 Memory is a map from a fixup's offset to the 32-bit word there.
 */
module Relocation {
  import opened Common

  const HALF := 0x1_0000

  // The four relocation types of IRX-3.
  const R_32 := 2
  const R_26 := 4
  const R_HI16 := 5
  const R_LO16 := 6

  /** A REL entry as the linker leaves it, and as the module carries it. */
  datatype Fixup = Fixup(offset: int, kind: int, symbol: int)
  datatype Rel = Rel(offset: int, kind: int)

  /** What a LO16 names: its symbol and the low half it starts from. */
  datatype Key = Key(symbol: int, low: int)

  type Image = map<int, int>

  ghost predicate Covers(img: Image, es: seq<Fixup>) {
    forall i :: 0 <= i < |es| ==> es[i].offset in img && 0 <= img[es[i].offset] < WORD
  }

  // ----- the words a relocation writes -----------------------------------------------------

  function Sext(low: int): int {
    if low >= 0x8000 then low - HALF else low
  }

  function WithLow(word: int, low: int): int {
    word / HALF * HALF + low % HALF
  }

  function Rebase32(word: int, base: int): int {
    (word + base) % WORD
  }

  function Rebase26(word: int, base: int): int {
    var rebased := (word % 0x400_0000 * 4 + base) % WORD;
    word / 0x400_0000 * 0x400_0000 + rebased / 4 % 0x400_0000
  }

  /** The address a `lui` and a low half name, moved by `base`. */
  function Address(stored: int, low: int, base: int): int {
    (stored % HALF * HALF + Sext(low) + base) % WORD
  }

  function HighOf(address: int): int {
    address / HALF + if address % HALF >= 0x8000 then 1 else 0
  }

  lemma LowHalf(word: int, low: int)
    requires 0 <= word < WORD
    ensures 0 <= WithLow(word, low) < WORD && WithLow(word, low) % HALF == low % HALF
  {
  }

  /** A high half with its carry and the sign-extended low half add up to the address. */
  lemma CarryIsRight(a: int)
    requires 0 <= a < WORD
    ensures (HighOf(a) % HALF * HALF + Sext(a % HALF)) % WORD == a
  {
    var h, l := a / HALF, a % HALF;
    assert a == h * HALF + l;
    if l >= 0x8000 {
      assert HighOf(a) == h + 1;
      if h + 1 == HALF { assert HighOf(a) % HALF == 0; } else { assert HighOf(a) % HALF == h + 1; }
    }
  }

  /** The pair of halves left in memory names the original address plus the base, carry included. */
  lemma PairNames(hi: int, lo: int, base: int)
    requires 0 <= hi < WORD && 0 <= lo < WORD && 0 <= base < WORD
    ensures var hi' := WithLow(hi, HighOf(Address(hi, lo % HALF, base)));
      var lo' := WithLow(lo, Sext(lo % HALF) + base);
      (hi' % HALF * HALF + Sext(lo' % HALF)) % WORD == (hi % HALF * HALF + Sext(lo % HALF) + base) % WORD
  {
    var t := Sext(lo % HALF) + base;
    var a := Address(hi, lo % HALF, base);
    LowHalf(hi, HighOf(a));
    LowHalf(lo, t);
    CarryIsRight(a);
    SameLow(hi % HALF, t);
  }

  lemma SameLow(h: int, t: int)
    ensures (h * HALF + t) % WORD % HALF == t % HALF
  {
    var s := h * HALF + t;
    var q := s / WORD;
    assert s % WORD == s - q * WORD;
    assert (s - q * WORD) % HALF == t % HALF by {
      assert s - q * WORD == t + (h - q * HALF) * HALF;
      AddHalves(t, h - q * HALF);
    }
  }

  lemma AddHalves(t: int, k: int)
    ensures (t + k * HALF) % HALF == t % HALF
  {
    assert t == t / HALF * HALF + t % HALF;
    assert t + k * HALF == (t / HALF + k) * HALF + t % HALF;
  }

  // ----- the loader: one held HI16 -------------------------------------------------------------

  datatype Held = Empty | Holding(offset: int, stored: int)

  /** applyRelocation: one entry against memory and the held HI16. */
  function Apply(e: Rel, base: int, mem: Image, held: Held): (Image, Held) {
    if e.offset !in mem then (mem, held) else
    var word := mem[e.offset];
    if e.kind == R_32 then (mem[e.offset := Rebase32(word, base)], held)
    else if e.kind == R_26 then (mem[e.offset := Rebase26(word, base)], held)
    else if e.kind == R_HI16 then (mem, Holding(e.offset, word))
    else if e.kind == R_LO16 then
      match held
      case Empty => (mem[e.offset := WithLow(word, (Sext(word % HALF) + base) % WORD)], Empty)
      case Holding(at, stored) =>
        var address := Address(stored, word % HALF, base);
        var mem' := mem[e.offset := WithLow(word, address)];
        if at !in mem' then (mem', Empty)
        else (mem'[at := WithLow(mem'[at], HighOf(address))], Empty)
    else (mem, held)
  }

  function Load(es: seq<Rel>, base: int, mem: Image, held: Held): (Image, Held) {
    if es == [] then (mem, held)
    else var (m, h) := Apply(es[0], base, mem, held); Load(es[1..], base, m, h)
  }

  lemma {:induction false} LoadAppend(a: seq<Rel>, b: seq<Rel>, base: int, mem: Image, held: Held)
    ensures var (m, h) := Load(a, base, mem, held); Load(a + b, base, mem, held) == Load(b, base, m, h)
  {
    if a == [] {
      assert a + b == b;
    } else {
      assert (a + b)[1..] == a[1..] + b;
      var (m, h) := Apply(a[0], base, mem, held);
      LoadAppend(a[1..], b, base, m, h);
    }
  }

  /** `relocate` over one section. */
  method Relocate(es: seq<Rel>, base: int, mem: Image) returns (m: Image)
    ensures m == Load(es, base, mem, Empty).0
  {
    m := mem;
    var held := Empty;
    var i := 0;
    while i < |es|
      invariant 0 <= i <= |es|
      invariant Load(es, base, mem, Empty) == Load(es[i..], base, m, held)
    {
      var (m', held') := Apply(es[i], base, m, held);
      m, held := m', held';
      i := i + 1;
    }
  }

  // ----- the linker's reading of its own stream ----------------------------------------------------

  /** The first entry after `i` that is not a HI16. */
  function RunEnd(es: seq<Fixup>, i: int): (j: int)
    requires 0 <= i <= |es|
    ensures i <= j <= |es|
    ensures forall k :: i <= k < j ==> es[k].kind == R_HI16
    ensures j < |es| ==> es[j].kind != R_HI16
    decreases |es| - i
  {
    if i == |es| || es[i].kind != R_HI16 then i else RunEnd(es, i + 1)
  }

  function LowAt(img: Image, e: Fixup): int {
    if e.offset in img then img[e.offset] % HALF else 0
  }

  function KeyOf(img: Image, e: Fixup): Key {
    Key(e.symbol, LowAt(img, e))
  }

  ghost predicate IsHi(es: seq<Fixup>, i: int) {
    0 <= i < |es| && es[i].kind == R_HI16
  }

  /** The run of HI16 at `i` ends at a LO16 of the same symbol. */
  predicate RunOk(es: seq<Fixup>, i: int)
    requires 0 <= i < |es|
  {
    var j := RunEnd(es, i);
    j < |es| && es[j].kind == R_LO16 && es[j].symbol == es[i].symbol
  }

  /** The key a HI16 resolves against: that of the LO16 ending its run. */
  function Wanted(es: seq<Fixup>, img: Image, i: int): Key {
    if !(0 <= i < |es|) then Key(0, 0) else
    var j := RunEnd(es, i);
    Key(es[i].symbol, if j < |es| then LowAt(img, es[j]) else 0)
  }

  /** The word each fixup's target holds once the module is based at `base`. */
  function Resolved(es: seq<Fixup>, img: Image, base: int, i: int): int
    requires 0 <= i < |es| && es[i].offset in img
  {
    var word := img[es[i].offset];
    if es[i].kind == R_32 then Rebase32(word, base)
    else if es[i].kind == R_26 then Rebase26(word, base)
    else if es[i].kind == R_HI16 then WithLow(word, HighOf(Address(word, Wanted(es, img, i).low, base)))
    else WithLow(word, Sext(word % HALF) + base)
  }

  // ----- the pairing mkirx chooses --------------------------------------------------------------------

  /** The LO16 entries before `n` that carry `key`, in order. */
  function Los(es: seq<Fixup>, img: Image, key: Key, n: int): seq<int>
    requires 0 <= n <= |es|
  {
    if n == 0 then []
    else Los(es, img, key, n - 1) + if es[n - 1].kind == R_LO16 && KeyOf(img, es[n - 1]) == key then [n - 1] else []
  }

  /** How many HI16 before `n` want `key`. */
  function His(es: seq<Fixup>, img: Image, key: Key, n: int): nat
    requires 0 <= n <= |es|
  {
    if n == 0 then 0
    else His(es, img, key, n - 1) + if es[n - 1].kind == R_HI16 && Wanted(es, img, n - 1) == key then 1 else 0
  }

  predicate Allowed(kind: int) {
    kind == R_32 || kind == R_26 || kind == R_HI16 || kind == R_LO16
  }

  ghost predicate RunsOk(es: seq<Fixup>) {
    && (forall i :: 0 <= i < |es| ==> Allowed(es[i].kind))
    && (forall i :: 0 <= i < |es| && es[i].kind == R_HI16 ==> RunOk(es, i))
  }

  /** Every HI16 finds a LO16 of its own left to take. */
  ghost predicate Served(es: seq<Fixup>, img: Image) {
    forall i :: 0 <= i < |es| && es[i].kind == R_HI16 ==>
      His(es, img, Wanted(es, img, i), i) < |Los(es, img, Wanted(es, img, i), |es|)|
  }

  ghost predicate Pairable(es: seq<Fixup>, img: Image) {
    RunsOk(es) && Served(es, img)
  }

  /** The LO16 that HI16 `i` takes: of its key, as many along as HI16 have asked before it. */
  function Mate(es: seq<Fixup>, img: Image, i: int): int {
    if !(0 <= i < |es|) then -1 else
    var los, before := Los(es, img, Wanted(es, img, i), |es|), His(es, img, Wanted(es, img, i), i);
    if before < |los| then los[before] else -1
  }

  ghost predicate Taken(es: seq<Fixup>, img: Image, k: int) {
    exists i :: 0 <= i < |es| && es[i].kind == R_HI16 && Mate(es, img, i) == k
  }

  lemma {:induction false} LosMembers(es: seq<Fixup>, img: Image, key: Key, n: int)
    requires 0 <= n <= |es|
    ensures forall k :: k in Los(es, img, key, n) <==> 0 <= k < n && es[k].kind == R_LO16 && KeyOf(img, es[k]) == key
  {
    hide KeyOf;
    if n > 0 { LosMembers(es, img, key, n - 1); }
  }

  lemma {:induction false} LosIncreasing(es: seq<Fixup>, img: Image, key: Key, n: int)
    requires 0 <= n <= |es|
    ensures forall a, b :: 0 <= a < b < |Los(es, img, key, n)| ==> Los(es, img, key, n)[a] < Los(es, img, key, n)[b]
  {
    hide KeyOf;
    if n > 0 {
      LosIncreasing(es, img, key, n - 1);
      LosMembers(es, img, key, n - 1);
      var s := Los(es, img, key, n - 1);
      assert forall a :: 0 <= a < |s| ==> s[a] in s;
    }
  }

  lemma LosOrdered(es: seq<Fixup>, img: Image, key: Key, n: int)
    requires 0 <= n <= |es|
    ensures var s := Los(es, img, key, n);
      && (forall a :: 0 <= a < |s| ==> 0 <= s[a] < n && es[s[a]].kind == R_LO16 && KeyOf(img, es[s[a]]) == key)
      && (forall a, b :: 0 <= a < b < |s| ==> s[a] < s[b])
      && (forall k :: 0 <= k < n && es[k].kind == R_LO16 && KeyOf(img, es[k]) == key ==> k in s)
  {
    hide *;
    LosMembers(es, img, key, n);
    LosIncreasing(es, img, key, n);
    var s := Los(es, img, key, n);
    assert forall a :: 0 <= a < |s| ==> s[a] in s;
  }

  lemma {:induction false} HisGrows(es: seq<Fixup>, img: Image, key: Key, i: int, n: int)
    requires 0 <= i <= n <= |es|
    ensures His(es, img, key, i) <= His(es, img, key, n)
    ensures i < n && es[i].kind == R_HI16 && Wanted(es, img, i) == key ==> His(es, img, key, i) < His(es, img, key, n)
    decreases n
  {
    if i < n { HisGrows(es, img, key, i, n - 1); }
  }

  /** A mate is a LO16 of the key its HI16 wants, and no two HI16 share one. */
  lemma MateFacts(es: seq<Fixup>, img: Image, i: int)
    requires Pairable(es, img) && IsHi(es, i)
    ensures var k := Mate(es, img, i);
      0 <= k < |es| && es[k].kind == R_LO16 && KeyOf(img, es[k]) == Wanted(es, img, i)
    ensures forall j :: 0 <= j < |es| && es[j].kind == R_HI16 && Mate(es, img, j) == Mate(es, img, i) ==> j == i
  {
    var key := Wanted(es, img, i);
    LosOrdered(es, img, key, |es|);
    forall j | 0 <= j < |es| && es[j].kind == R_HI16 && Mate(es, img, j) == Mate(es, img, i)
      ensures j == i
    {
      LosOrdered(es, img, Wanted(es, img, j), |es|);
      if j < i { HisGrows(es, img, key, j, i); } else if i < j { HisGrows(es, img, key, i, j); }
    }
  }

  ghost predicate Enough(es: seq<Fixup>, img: Image) {
    forall key: Key :: His(es, img, key, |es|) <= |Los(es, img, key, |es|)|
  }

  /** Every HI16 is served exactly when each key has a LO16 for every HI16 that wants it. */
  lemma ServedIffEnough(es: seq<Fixup>, img: Image)
    ensures Served(es, img) <==> Enough(es, img)
  {
    if Served(es, img) {
      forall key: Key
        ensures His(es, img, key, |es|) <= |Los(es, img, key, |es|)|
      {
        HisBounded(es, img, key, |es|);
      }
    }
    if Enough(es, img) {
      forall i | 0 <= i < |es| && es[i].kind == R_HI16
        ensures His(es, img, Wanted(es, img, i), i) < |Los(es, img, Wanted(es, img, i), |es|)|
      {
        HisGrows(es, img, Wanted(es, img, i), i, |es|);
        assert His(es, img, Wanted(es, img, i), |es|) <= |Los(es, img, Wanted(es, img, i), |es|)|;
      }
    }
  }

  /** From a HI16 on there are only HI16 until a LO16 of its symbol. */
  ghost predicate EndsInLo(es: seq<Fixup>, i: int)
    requires 0 <= i < |es|
  {
    exists j :: i < j < |es| && (forall x :: i <= x < j ==> es[x].kind == 5) && es[j].kind == 6
      && es[j].symbol == es[i].symbol
  }

  /** Which sections can be paired: known kinds, every run closed, and as many LO16 of each key as HI16 want. */
  lemma PairableIff(es: seq<Fixup>, img: Image)
    ensures Pairable(es, img) <==>
      && (forall i :: 0 <= i < |es| ==> es[i].kind in {2, 4, 5, 6})
      && (forall i :: 0 <= i < |es| && es[i].kind == 5 ==> EndsInLo(es, i))
      && Enough(es, img)
  {
    hide Served, Enough;
    ServedIffEnough(es, img);
    forall i | 0 <= i < |es| && es[i].kind == 5
      ensures RunOk(es, i) <==> EndsInLo(es, i)
    {
      var j := RunEnd(es, i);
      if RunOk(es, i) { assert i < j; }
      if EndsInLo(es, i) {
        var l :| i < l < |es| && (forall x :: i <= x < l ==> es[x].kind == 5) && es[l].kind == 6
          && es[l].symbol == es[i].symbol;
        assert j == l;
      }
    }
  }

  lemma ServedAt(es: seq<Fixup>, img: Image, i: int)
    requires Served(es, img) && 0 <= i < |es| && es[i].kind == R_HI16
    ensures His(es, img, Wanted(es, img, i), i) < |Los(es, img, Wanted(es, img, i), |es|)|
  {
  }

  lemma {:induction false} HisBounded(es: seq<Fixup>, img: Image, key: Key, n: int)
    requires Served(es, img) && 0 <= n <= |es|
    ensures His(es, img, key, n) <= |Los(es, img, key, |es|)|
  {
    hide Served, Los;
    if n > 0 {
      HisBounded(es, img, key, n - 1);
      if es[n - 1].kind == R_HI16 { ServedAt(es, img, n - 1); }
    }
  }

  // ----- the emitted order ----------------------------------------------------------------------------

  /** The indices entry `i` is emitted as: a taken LO16 moves behind its HI16. */
  ghost function Slot(es: seq<Fixup>, img: Image, i: int): seq<int>
    requires Pairable(es, img) && 0 <= i < |es|
  {
    if es[i].kind == R_HI16 then [i, Mate(es, img, i)]
    else if Taken(es, img, i) then []
    else [i]
  }

  ghost function Order(es: seq<Fixup>, img: Image, n: int): seq<int>
    requires Pairable(es, img) && 0 <= n <= |es|
  {
    if n == 0 then [] else Order(es, img, n - 1) + Slot(es, img, n - 1)
  }

  function Entries(es: seq<Fixup>, o: seq<int>): (r: seq<Rel>)
    requires forall a :: 0 <= a < |o| ==> 0 <= o[a] < |es|
    ensures |r| == |o| && forall a :: 0 <= a < |o| ==> r[a] == Rel(es[o[a]].offset, es[o[a]].kind)
  {
    seq(|o|, a requires 0 <= a < |o| => Rel(es[o[a]].offset, es[o[a]].kind))
  }

  /** The stream mkirx writes for the first `n` entries. */
  ghost function Emitted(es: seq<Fixup>, img: Image, n: int): seq<Rel>
    requires Pairable(es, img) && 0 <= n <= |es|
  {
    OrderInRange(es, img, n);
    Entries(es, Order(es, img, n))
  }

  lemma {:induction false} OrderInRange(es: seq<Fixup>, img: Image, n: int)
    requires Pairable(es, img) && 0 <= n <= |es|
    ensures forall a :: 0 <= a < |Order(es, img, n)| ==> 0 <= Order(es, img, n)[a] < |es|
  {
    hide Pairable, Mate, Taken;
    if n > 0 {
      OrderInRange(es, img, n - 1);
      if es[n - 1].kind == R_HI16 { MateFacts(es, img, n - 1); }
    }
  }

  /** Index `k` has been emitted among the first `n` entries. */
  ghost predicate Out(es: seq<Fixup>, img: Image, n: int, k: int)
    requires Pairable(es, img) && 0 <= n <= |es|
  {
    || (0 <= k < n && !Taken(es, img, k))
    || (exists i :: 0 <= i < n && es[i].kind == R_HI16 && Mate(es, img, i) == k)
  }

  lemma OrderStep(es: seq<Fixup>, img: Image, n: int)
    requires Pairable(es, img) && 0 <= n <= |es|
    ensures Order(es, img, n) == if n == 0 then [] else Order(es, img, n - 1) + Slot(es, img, n - 1)
  {
  }

  lemma {:induction false} OrderHolds(es: seq<Fixup>, img: Image, n: int, k: int)
    requires Pairable(es, img) && 0 <= n <= |es|
    ensures k in Order(es, img, n) <==> Out(es, img, n, k)
  {
    hide Pairable, Mate, Taken, Order;
    OrderStep(es, img, n);
    if n > 0 {
      OrderHolds(es, img, n - 1, k);
      if es[n - 1].kind == R_HI16 { HiNeverTaken(es, img, n - 1); }
    }
  }

  lemma {:induction false} OrderDistinct(es: seq<Fixup>, img: Image, n: int)
    requires Pairable(es, img) && 0 <= n <= |es|
    ensures forall a, b :: 0 <= a < b < |Order(es, img, n)| ==> Order(es, img, n)[a] != Order(es, img, n)[b]
  {
    hide Pairable, Mate, Taken;
    if n > 0 {
      OrderDistinct(es, img, n - 1);
      var i := n - 1;
      if es[i].kind == R_HI16 {
        MateFacts(es, img, i);
        NotYetOut(es, img, i, Mate(es, img, i));
      }
      if !Taken(es, img, i) { NotYetOut(es, img, i, i); }
      if es[i].kind == R_HI16 { HiNeverTaken(es, img, i); }
    }
  }

  /** Neither entry `i` nor the LO16 it takes has gone out before it. */
  lemma NotYetOut(es: seq<Fixup>, img: Image, i: int, k: int)
    requires Pairable(es, img) && 0 <= i < |es|
    requires (k == i && !Taken(es, img, i)) || (es[i].kind == R_HI16 && k == Mate(es, img, i))
    ensures k !in Order(es, img, i)
  {
    OrderHolds(es, img, i, k);
    if Out(es, img, i, k) {
      if es[i].kind == R_HI16 { MateFacts(es, img, i); }
      if k != i { assert Taken(es, img, k); }
    }
  }

  lemma HiNeverTaken(es: seq<Fixup>, img: Image, i: int)
    requires Pairable(es, img) && IsHi(es, i)
    ensures !Taken(es, img, i)
  {
    if Taken(es, img, i) {
      var j :| 0 <= j < |es| && es[j].kind == R_HI16 && Mate(es, img, j) == i;
      MateFacts(es, img, j);
    }
  }

  /** The output is a permutation of the input: every entry goes out once, as it came in. */
  lemma EmittedIsPermutation(es: seq<Fixup>, img: Image)
    requires Pairable(es, img)
    ensures var o, out := Order(es, img, |es|), Emitted(es, img, |es|);
      && (forall k :: 0 <= k < |es| <==> k in o)
      && (forall a, b :: 0 <= a < b < |o| ==> o[a] != o[b])
      && |out| == |o|
      && (forall a :: 0 <= a < |o| ==> 0 <= o[a] < |es| && out[a] == Rel(es[o[a]].offset, es[o[a]].kind))
  {
    OrderInRange(es, img, |es|);
    OrderDistinct(es, img, |es|);
    forall k
      ensures 0 <= k < |es| <==> k in Order(es, img, |es|)
    {
      OrderHolds(es, img, |es|, k);
      if k in Order(es, img, |es|) {
        var a :| 0 <= a < |Order(es, img, |es|)| && Order(es, img, |es|)[a] == k;
      }
    }
  }

  ghost predicate PairedAt(out: seq<Rel>, a: int)
    requires 0 <= a < |out|
  {
    out[a].kind == R_HI16 ==> a + 1 < |out| && out[a + 1].kind == R_LO16
  }

  ghost predicate StrictPairs(out: seq<Rel>) {
    forall a :: 0 <= a < |out| ==> PairedAt(out, a)
  }

  lemma StrictPairsAppend(a: seq<Rel>, b: seq<Rel>)
    requires StrictPairs(a) && StrictPairs(b)
    ensures StrictPairs(a + b)
  {
    forall i | 0 <= i < |a + b|
      ensures PairedAt(a + b, i)
    {
      if i < |a| { assert PairedAt(a, i); } else { assert PairedAt(b, i - |a|); }
    }
  }

  lemma EmittedStep(es: seq<Fixup>, img: Image, n: int)
    requires Pairable(es, img) && 0 < n <= |es|
    ensures var slot := Slot(es, img, n - 1);
      && (forall a :: 0 <= a < |slot| ==> 0 <= slot[a] < |es|)
      && Emitted(es, img, n) == Emitted(es, img, n - 1) + Entries(es, slot)
  {
    hide Pairable, Slot, Entries;
    OrderInRange(es, img, n);
    OrderInRange(es, img, n - 1);
    var a, slot := Order(es, img, n - 1), Slot(es, img, n - 1);
    assert Order(es, img, n) == a + slot;
    assert forall k :: 0 <= k < |slot| ==> slot[k] == (a + slot)[|a| + k];
  }

  lemma SlotAlternates(es: seq<Fixup>, img: Image, i: int)
    requires Pairable(es, img) && 0 <= i < |es|
    ensures var slot := Slot(es, img, i);
      (forall a :: 0 <= a < |slot| ==> 0 <= slot[a] < |es|) && StrictPairs(Entries(es, slot))
  {
    if es[i].kind == R_HI16 { MateFacts(es, img, i); }
  }

  /** Every HI16 in the output is followed at once by a LO16. */
  lemma {:induction false} EmittedAlternates(es: seq<Fixup>, img: Image, n: int)
    requires Pairable(es, img) && 0 <= n <= |es|
    ensures StrictPairs(Emitted(es, img, n))
  {
    hide *;
    if n == 0 {
      EmittedNone(es, img);
    } else {
      EmittedAlternates(es, img, n - 1);
      EmittedStep(es, img, n);
      SlotAlternates(es, img, n - 1);
      StrictPairsAppend(Emitted(es, img, n - 1), Entries(es, Slot(es, img, n - 1)));
    }
  }

  lemma EmittedNone(es: seq<Fixup>, img: Image)
    requires Pairable(es, img)
    ensures Emitted(es, img, 0) == [] && StrictPairs(Emitted(es, img, 0))
  {
  }

  // ----- what the loader makes of the output -----------------------------------------------------------

  ghost predicate DistinctTargets(es: seq<Fixup>) {
    forall i, j :: 0 <= i < j < |es| ==> es[i].offset != es[j].offset
  }

  ghost predicate Agrees(es: seq<Fixup>, img: Image, mem: Image)
    requires Covers(img, es)
  {
    forall i :: 0 <= i < |es| ==> es[i].offset in mem && mem[es[i].offset] == img[es[i].offset]
  }

  ghost predicate Targeted(es: seq<Fixup>, x: int) {
    exists k :: 0 <= k < |es| && es[k].offset == x
  }

  /** The words of the entries in `done` are resolved, and no other word has moved. */
  ghost predicate Midway(es: seq<Fixup>, img: Image, base: int, mem: Image, done: set<int>, m: Image)
    requires Covers(img, es)
  {
    && m.Keys == mem.Keys
    && (forall k :: 0 <= k < |es| && es[k].offset in m ==>
          m[es[k].offset] == if k in done then Resolved(es, img, base, k) else img[es[k].offset])
    && (forall x :: x in m && !Targeted(es, x) ==> m[x] == mem[x])
  }

  ghost function Done(es: seq<Fixup>, img: Image, n: int): set<int>
    requires Pairable(es, img) && 0 <= n <= |es|
  {
    set k | k in Order(es, img, n)
  }

  /** Writing one more resolved word. */
  lemma Put(es: seq<Fixup>, img: Image, base: int, mem: Image, done: set<int>, m: Image, k: int)
    requires Covers(img, es) && DistinctTargets(es) && Agrees(es, img, mem)
    requires Midway(es, img, base, mem, done, m) && 0 <= k < |es|
    ensures es[k].offset in m
    ensures Midway(es, img, base, mem, done + {k}, m[es[k].offset := Resolved(es, img, base, k)])
  {
    assert Targeted(es, es[k].offset);
  }

  /** Memory `m` is `mem` with every word the section names resolved as the linker's runs mean it. */
  ghost predicate AllResolved(es: seq<Fixup>, img: Image, base: int, mem: Image, m: Image)
    requires Covers(img, es)
  {
    && m.Keys == mem.Keys
    && (forall k :: 0 <= k < |es| && es[k].offset in m ==> m[es[k].offset] == Resolved(es, img, base, k))
    && (forall x :: x in m && !Targeted(es, x) ==> m[x] == mem[x])
  }

  lemma ResolvedLow(word: int, base: int)
    requires 0 <= word < WORD
    ensures WithLow(word, (Sext(word % HALF) + base) % WORD) == WithLow(word, Sext(word % HALF) + base)
    ensures forall stored ::
      WithLow(word, Address(stored, word % HALF, base)) == WithLow(word, Sext(word % HALF) + base)
  {
    SameLow(0, Sext(word % HALF) + base);
    forall stored
      ensures WithLow(word, Address(stored, word % HALF, base)) == WithLow(word, Sext(word % HALF) + base)
    {
      SameLow(stored % HALF, Sext(word % HALF) + base);
    }
  }

  /** An entry still to come finds its word as the image has it. */
  lemma StillAsBuilt(es: seq<Fixup>, img: Image, base: int, mem: Image, n: int, m: Image, k: int)
    requires Pairable(es, img) && Covers(img, es) && Agrees(es, img, mem)
    requires 0 <= n < |es| && 0 <= k < |es| && Midway(es, img, base, mem, Done(es, img, n), m)
    requires (k == n && !Taken(es, img, n)) || (es[n].kind == R_HI16 && k == Mate(es, img, n))
    ensures es[k].offset in m && m[es[k].offset] == img[es[k].offset] && 0 <= img[es[k].offset] < WORD
  {
    NotYetOut(es, img, n, k);
  }

  lemma LoadPlain(es: seq<Fixup>, img: Image, base: int, m: Image, i: int)
    requires Covers(img, es) && 0 <= i < |es| && es[i].kind != R_HI16 && Allowed(es[i].kind)
    requires es[i].offset in m && m[es[i].offset] == img[es[i].offset]
    ensures Load(Entries(es, [i]), base, m, Empty) == (m[es[i].offset := Resolved(es, img, base, i)], Empty)
  {
    var slot := Entries(es, [i]);
    assert slot == [Rel(es[i].offset, es[i].kind)] && slot[1..] == [];
    assert Load(slot, base, m, Empty) ==
      Load([], base, Apply(slot[0], base, m, Empty).0, Apply(slot[0], base, m, Empty).1);
    ResolvedLow(img[es[i].offset], base);
  }

  /** A HI16 and its mate: both words end up as the linker's run resolves them. */
  lemma LoadPair(es: seq<Fixup>, img: Image, base: int, m: Image, i: int, k: int)
    requires Covers(img, es) && 0 <= i < |es| && 0 <= k < |es| && es[i].kind == R_HI16 && es[k].kind == R_LO16
    requires es[i].offset != es[k].offset && KeyOf(img, es[k]) == Wanted(es, img, i)
    requires es[i].offset in m && m[es[i].offset] == img[es[i].offset]
    requires es[k].offset in m && m[es[k].offset] == img[es[k].offset]
    ensures Load(Entries(es, [i, k]), base, m, Empty)
      == (m[es[k].offset := Resolved(es, img, base, k)][es[i].offset := Resolved(es, img, base, i)], Empty)
  {
    var x, y := es[i].offset, es[k].offset;
    var slot := Entries(es, [i, k]);
    assert slot == [Rel(x, R_HI16), Rel(y, R_LO16)];
    assert slot[1..] == [slot[1]] && slot[1..][1..] == [];
    assert Apply(slot[0], base, m, Empty) == (m, Holding(x, img[x]));
    ResolvedLow(img[y], base);
    var m' := m[y := Resolved(es, img, base, k)][x := Resolved(es, img, base, i)];
    assert Apply(slot[1], base, m, Holding(x, img[x])) == (m', Empty);
    assert Load(slot[1..], base, m, Holding(x, img[x])) == Load([], base, m', Empty);
  }

  /** One emitted slot takes memory from one midway point to the next and leaves nothing held. */
  lemma LoadSlot(es: seq<Fixup>, img: Image, base: int, mem: Image, n: int, m: Image)
    requires Pairable(es, img) && Covers(img, es) && DistinctTargets(es) && Agrees(es, img, mem)
    requires 0 < n <= |es| && Midway(es, img, base, mem, Done(es, img, n - 1), m)
    requires var slot := Slot(es, img, n - 1); forall a :: 0 <= a < |slot| ==> 0 <= slot[a] < |es|
    ensures Load(Entries(es, Slot(es, img, n - 1)), base, m, Empty).1 == Empty
    ensures Midway(es, img, base, mem, Done(es, img, n), Load(Entries(es, Slot(es, img, n - 1)), base, m, Empty).0)
  {
    hide Midway, Agrees, DistinctTargets, Load, Resolved, Entries;
    var i := n - 1;
    var done := Done(es, img, i);
    if es[i].kind == R_HI16 {
      var k := Mate(es, img, i);
      MateFacts(es, img, i);
      HiNeverTaken(es, img, i);
      StillAsBuilt(es, img, base, mem, i, m, i);
      StillAsBuilt(es, img, base, mem, i, m, k);
      TargetsDiffer(es, i, k);
      LoadPair(es, img, base, m, i, k);
      Put(es, img, base, mem, done, m, k);
      Put(es, img, base, mem, done + {k}, m[es[k].offset := Resolved(es, img, base, k)], i);
      assert Done(es, img, n) == done + {k} + {i};
    } else if Taken(es, img, i) {
      assert Done(es, img, n) == done;
      LoadNone(base, m);
      assert Entries(es, []) == [];
    } else {
      StillAsBuilt(es, img, base, mem, i, m, i);
      LoadPlain(es, img, base, m, i);
      Put(es, img, base, mem, done, m, i);
      assert Done(es, img, n) == done + {i};
    }
  }

  lemma TargetsDiffer(es: seq<Fixup>, i: int, k: int)
    requires DistinctTargets(es) && 0 <= i < |es| && 0 <= k < |es| && i != k
    ensures es[i].offset != es[k].offset
  {
  }

  lemma LoadNone(base: int, m: Image)
    ensures Load([], base, m, Empty) == (m, Empty)
  {
  }

  lemma MidwayStart(es: seq<Fixup>, img: Image, base: int, mem: Image)
    requires Pairable(es, img) && Covers(img, es) && Agrees(es, img, mem)
    ensures Load(Emitted(es, img, 0), base, mem, Empty) == (mem, Empty)
    ensures Midway(es, img, base, mem, Done(es, img, 0), mem)
  {
    EmittedNone(es, img);
    assert Done(es, img, 0) == {};
  }

  lemma {:induction false} LoadEmitted(es: seq<Fixup>, img: Image, base: int, mem: Image, n: int)
    requires Pairable(es, img) && Covers(img, es) && DistinctTargets(es) && Agrees(es, img, mem)
    requires 0 <= n <= |es|
    ensures Load(Emitted(es, img, n), base, mem, Empty).1 == Empty
    ensures Midway(es, img, base, mem, Done(es, img, n), Load(Emitted(es, img, n), base, mem, Empty).0)
  {
    hide *;
    if n == 0 {
      MidwayStart(es, img, base, mem);
    } else {
      LoadEmitted(es, img, base, mem, n - 1);
      EmittedStep(es, img, n);
      var m := Load(Emitted(es, img, n - 1), base, mem, Empty).0;
      LoadAppend(Emitted(es, img, n - 1), Entries(es, Slot(es, img, n - 1)), base, mem, Empty);
      LoadSlot(es, img, base, mem, n, m);
    }
  }

  /** The single-slot loader over mkirx's stream does what resolving each HI16 by its run's LO16 would. */
  lemma LoaderMeetsLinker(es: seq<Fixup>, img: Image, base: int, mem: Image)
    requires Pairable(es, img) && Covers(img, es) && DistinctTargets(es) && Agrees(es, img, mem)
    ensures var r := Load(Emitted(es, img, |es|), base, mem, Empty);
      r.1 == Empty && AllResolved(es, img, base, mem, r.0)
  {
    LoadEmitted(es, img, base, mem, |es|);
    forall k | 0 <= k < |es|
      ensures k in Done(es, img, |es|)
    {
      OrderHolds(es, img, |es|, k);
    }
  }

  // ----- a module of several REL sections ---------------------------------------------------------------

  /** The keys the HI16 among the first `n` entries want. */
  ghost function WantedKeys(es: seq<Fixup>, img: Image, n: int): set<Key>
    requires 0 <= n <= |es|
  {
    set i | 0 <= i < n && es[i].kind == R_HI16 :: Wanted(es, img, i)
  }

  /** The keys of the LO16 among the first `n` entries that no HI16 takes. */
  ghost function LeftKeys(es: seq<Fixup>, img: Image, n: int): set<Key>
    requires 0 <= n <= |es|
  {
    set k | 0 <= k < n && es[k].kind == R_LO16 && !Taken(es, img, k) :: KeyOf(img, es[k])
  }

  ghost function ModuleWanted(sections: seq<seq<Fixup>>, img: Image, n: int): set<Key>
    requires 0 <= n <= |sections|
  {
    if n == 0 then {} else ModuleWanted(sections, img, n - 1) + WantedKeys(sections[n - 1], img, |sections[n - 1]|)
  }

  ghost function ModuleLeft(sections: seq<seq<Fixup>>, img: Image, n: int): set<Key>
    requires 0 <= n <= |sections|
  {
    if n == 0 then {} else ModuleLeft(sections, img, n - 1) + LeftKeys(sections[n - 1], img, |sections[n - 1]|)
  }

  ghost predicate PairableTo(sections: seq<seq<Fixup>>, img: Image, n: int)
    requires 0 <= n <= |sections|
  {
    forall s {:trigger sections[s]} :: 0 <= s < n ==> Pairable(sections[s], img)
  }

  /** What mkirx demands of the linker's streams. */
  ghost predicate Accepts(sections: seq<seq<Fixup>>, img: Image) {
    && PairableTo(sections, img, |sections|)
    && forall s :: 0 <= s < |sections| ==> NoStrayIn(sections[s], img, ModuleWanted(sections, img, |sections|))
  }

  lemma {:induction false} ModuleWantedFrom(sections: seq<seq<Fixup>>, img: Image, n: int, key: Key)
    returns (s: int, i: int)
    requires 0 <= n <= |sections| && key in ModuleWanted(sections, img, n)
    ensures 0 <= s < n && IsHi(sections[s], i) && Wanted(sections[s], img, i) == key
  {
    if key in ModuleWanted(sections, img, n - 1) {
      s, i := ModuleWantedFrom(sections, img, n - 1, key);
    } else {
      s := n - 1;
      i :| 0 <= i < |sections[s]| && sections[s][i].kind == R_HI16 && Wanted(sections[s], img, i) == key;
    }
  }

  /** A LO16 is left over, or some HI16 of its own section wants its key. */
  lemma LeftOrWanted(es: seq<Fixup>, img: Image, k: int)
    requires Pairable(es, img) && 0 <= k < |es| && es[k].kind == R_LO16
    ensures KeyOf(img, es[k]) in LeftKeys(es, img, |es|) || KeyOf(img, es[k]) in WantedKeys(es, img, |es|)
  {
    if Taken(es, img, k) {
      var i :| 0 <= i < |es| && es[i].kind == R_HI16 && Mate(es, img, i) == k;
      MateFacts(es, img, i);
    }
  }

  /** Every LO16 of the section shares its key with a HI16 of the module. */
  ghost predicate NoStrayIn(es: seq<Fixup>, img: Image, wanted: set<Key>) {
    forall k :: 0 <= k < |es| && es[k].kind == R_LO16 ==> KeyOf(img, es[k]) in wanted
  }

  lemma NoStrayInIff(es: seq<Fixup>, img: Image, wanted: set<Key>)
    requires Pairable(es, img) && WantedKeys(es, img, |es|) <= wanted
    ensures NoStrayIn(es, img, wanted) <==> LeftKeys(es, img, |es|) <= wanted
  {
    hide Pairable, WantedKeys;
    forall k | 0 <= k < |es| && es[k].kind == R_LO16
      ensures KeyOf(img, es[k]) in LeftKeys(es, img, |es|) || KeyOf(img, es[k]) in wanted
    {
      LeftOrWanted(es, img, k);
    }
  }

  lemma {:induction false} ModuleWantedHolds(sections: seq<seq<Fixup>>, img: Image, s: int, n: int)
    requires 0 <= s < n <= |sections|
    ensures WantedKeys(sections[s], img, |sections[s]|) <= ModuleWanted(sections, img, n)
  {
    if s < n - 1 { ModuleWantedHolds(sections, img, s, n - 1); }
  }

  /** Checking the left-over LO16 alone checks them all. */
  lemma {:induction false} NoStrayIff(sections: seq<seq<Fixup>>, img: Image, n: int)
    requires 0 <= n <= |sections| && PairableTo(sections, img, n)
    ensures ModuleLeft(sections, img, n) <= ModuleWanted(sections, img, |sections|) <==>
      forall s :: 0 <= s < n ==> NoStrayIn(sections[s], img, ModuleWanted(sections, img, |sections|))
  {
    hide Pairable, WantedKeys, LeftKeys, NoStrayIn;
    if n > 0 {
      NoStrayIff(sections, img, n - 1);
      ModuleWantedHolds(sections, img, n - 1, |sections|);
      NoStrayInIff(sections[n - 1], img, ModuleWanted(sections, img, |sections|));
    }
  }

  ghost function Output(sections: seq<seq<Fixup>>, img: Image, n: int): seq<Rel>
    requires 0 <= n <= |sections| && PairableTo(sections, img, n)
  {
    if n == 0 then [] else Output(sections, img, n - 1) + Emitted(sections[n - 1], img, |sections[n - 1]|)
  }

  ghost predicate ModuleCovers(sections: seq<seq<Fixup>>, img: Image) {
    forall s {:trigger sections[s]} :: 0 <= s < |sections| ==> Covers(img, sections[s])
  }

  /** No word is the target of two fixups. */
  ghost predicate ModuleDistinct(sections: seq<seq<Fixup>>) {
    && (forall s {:trigger sections[s]} :: 0 <= s < |sections| ==> DistinctTargets(sections[s]))
    && (forall s, t, x :: 0 <= s < t < |sections| && Targeted(sections[s], x) ==> !Targeted(sections[t], x))
  }

  ghost predicate InSections(sections: seq<seq<Fixup>>, n: int, x: int)
    requires 0 <= n <= |sections|
  {
    exists s :: 0 <= s < n && Targeted(sections[s], x)
  }

  /** Memory with the fixups of the first `n` sections resolved, and nothing else moved. */
  ghost predicate ModuleResolved(sections: seq<seq<Fixup>>, img: Image, base: int, n: int, m: Image)
    requires ModuleCovers(sections, img) && 0 <= n <= |sections|
  {
    && m.Keys == img.Keys
    && (forall s, k :: 0 <= s < n && 0 <= k < |sections[s]| && sections[s][k].offset in m ==>
          m[sections[s][k].offset] == Resolved(sections[s], img, base, k))
    && (forall x :: x in m && !InSections(sections, n, x) ==> m[x] == img[x])
  }

  lemma ModuleStep(sections: seq<seq<Fixup>>, img: Image, base: int, n: int, m: Image, m': Image)
    requires ModuleCovers(sections, img) && ModuleDistinct(sections) && 0 < n <= |sections|
    requires ModuleResolved(sections, img, base, n - 1, m)
    requires AllResolved(sections[n - 1], img, base, m, m')
    ensures ModuleResolved(sections, img, base, n, m')
  {
    forall s, k | 0 <= s < n && 0 <= k < |sections[s]| && sections[s][k].offset in m'
      ensures m'[sections[s][k].offset] == Resolved(sections[s], img, base, k)
    {
      assert Targeted(sections[s], sections[s][k].offset);
    }
    forall x | x in m' && !InSections(sections, n, x)
      ensures m'[x] == img[x]
    {
      assert !Targeted(sections[n - 1], x);
    }
  }

  lemma SectionUntouched(sections: seq<seq<Fixup>>, img: Image, base: int, n: int, m: Image)
    requires ModuleCovers(sections, img) && ModuleDistinct(sections) && 0 < n <= |sections|
    requires ModuleResolved(sections, img, base, n - 1, m)
    ensures Agrees(sections[n - 1], img, m)
  {
    var es := sections[n - 1];
    forall i | 0 <= i < |es|
      ensures es[i].offset in m && m[es[i].offset] == img[es[i].offset]
    {
      assert Targeted(es, es[i].offset);
    }
  }

  lemma {:induction false} ModuleLoaded(sections: seq<seq<Fixup>>, img: Image, base: int, n: int)
    requires ModuleCovers(sections, img) && ModuleDistinct(sections) && 0 <= n <= |sections|
    requires PairableTo(sections, img, n)
    ensures Load(Output(sections, img, n), base, img, Empty).1 == Empty
    ensures ModuleResolved(sections, img, base, n, Load(Output(sections, img, n), base, img, Empty).0)
  {
    if n > 0 {
      hide ModuleResolved, Emitted, DistinctTargets, Covers, Agrees, AllResolved, Pairable, Load;
      var es := sections[n - 1];
      ModuleLoaded(sections, img, base, n - 1);
      var m := Load(Output(sections, img, n - 1), base, img, Empty).0;
      SectionUntouched(sections, img, base, n, m);
      LoaderMeetsLinker(es, img, base, m);
      LoadAppend(Output(sections, img, n - 1), Emitted(es, img, |es|), base, img, Empty);
      ModuleStep(sections, img, base, n, m, Load(Emitted(es, img, |es|), base, m, Empty).0);
    }
  }

  /**
   At every base, loading the module mkirx wrote leaves each fixup's word as the linker's runs resolve
   it and every other word alone.
   */
  lemma PipelineCorrect(sections: seq<seq<Fixup>>, img: Image, base: int)
    requires ModuleCovers(sections, img) && ModuleDistinct(sections) && Accepts(sections, img)
    ensures ModuleResolved(sections, img, base, |sections|, Load(Output(sections, img, |sections|), base, img, Empty).0)
  {
    ModuleLoaded(sections, img, base, |sections|);
  }

  /** HI16 `i` of section `s` and LO16 `k` of section `t` name `base` more in `m` than in the image. */
  ghost predicate Moves(sections: seq<seq<Fixup>>, img: Image, base: int, m: Image, s: int, i: int, t: int, k: int)
    requires 0 <= s < |sections| && 0 <= i < |sections[s]| && 0 <= t < |sections| && 0 <= k < |sections[t]|
  {
    var x, y := sections[s][i].offset, sections[t][k].offset;
    && x in img && x in m && y in img && y in m
    && (m[x] % HALF * HALF + Sext(m[y] % HALF)) % WORD == (img[x] % HALF * HALF + Sext(img[y] % HALF) + base) % WORD
  }

  /** Every LO16 of an accepted module, taken or repeated, shares its key with a HI16. */
  lemma EveryLoIsWanted(sections: seq<seq<Fixup>>, img: Image, t: int, k: int) returns (s: int, i: int)
    requires Accepts(sections, img)
    requires 0 <= t < |sections| && 0 <= k < |sections[t]| && sections[t][k].kind == R_LO16
    ensures 0 <= s < |sections| && IsHi(sections[s], i) && Wanted(sections[s], img, i) == KeyOf(img, sections[t][k])
  {
    s, i := ModuleWantedFrom(sections, img, |sections|, KeyOf(img, sections[t][k]));
  }

  /** Once loaded, a HI16 and any LO16 of the key it wants name the address they named before, plus the base. */
  lemma EveryAddressMoves(sections: seq<seq<Fixup>>, img: Image, base: int, m: Image, s: int, i: int, t: int, k: int)
    requires ModuleCovers(sections, img) && 0 <= base < WORD
    requires ModuleResolved(sections, img, base, |sections|, m)
    requires 0 <= t < |sections| && 0 <= k < |sections[t]| && sections[t][k].kind == R_LO16
    requires 0 <= s < |sections| && IsHi(sections[s], i) && Wanted(sections[s], img, i) == KeyOf(img, sections[t][k])
    ensures Moves(sections, img, base, m, s, i, t, k)
  {
    var x, y := sections[s][i].offset, sections[t][k].offset;
    assert m[x] == Resolved(sections[s], img, base, i);
    assert m[y] == Resolved(sections[t], img, base, k);
    PairNames(img[x], img[y], base);
  }

  // ----- what the words of a loaded module are --------------------------------------------------------------

  /** The 16-bit immediate of an instruction, as the signed number it adds. */
  function Immediate(word: int): int {
    (word + 0x8000) % 0x1_0000 - 0x8000
  }

  /** The module's memory once the loader has been through what mkirx wrote. */
  ghost function Loaded(sections: seq<seq<Fixup>>, img: Image, base: int): Image
    requires Accepts(sections, img)
  {
    Load(Output(sections, img, |sections|), base, img, Empty).0
  }

  /**
   One word before and after, by the type of its fixup: a pointer (2) moves by the base, a jump's target (4) too, and
   an instruction with half an address (5 and 6) keeps its upper half.
   */
  ghost predicate WordMoved(kind: int, w: int, w': int, base: int) {
    && 0 <= w' < 0x1_0000_0000
    && (kind == 2 ==> (w' - base - w) % 0x1_0000_0000 == 0)
    && (kind == 4 ==> w' / 0x400_0000 == w / 0x400_0000)
    && (kind == 4 && base % 4 == 0 ==> w' % 0x400_0000 * 4 == (w % 0x400_0000 * 4 + base) % 0x1000_0000)
    && (kind == 5 || kind == 6 ==> w' / 0x1_0000 == w / 0x1_0000)
  }

  /** Each fixup of an accepted module does to its word what its type says. */
  lemma LoadedWord(sections: seq<seq<Fixup>>, img: Image, base: int, s: int, i: int)
    requires ModuleCovers(sections, img) && ModuleDistinct(sections) && Accepts(sections, img)
    requires 0 <= base < WORD && 0 <= s < |sections| && 0 <= i < |sections[s]|
    ensures var x, m := sections[s][i].offset, Loaded(sections, img, base);
      x in img && x in m && sections[s][i].kind in {2, 4, 5, 6} && WordMoved(sections[s][i].kind, img[x], m[x], base)
  {
    hide Resolved, Pairable, Allowed, WordMoved, Load, Output, NoStrayIn;
    PipelineCorrect(sections, img, base);
    var es, m := sections[s], Loaded(sections, img, base);
    assert Pairable(es, img);
    AllAllowed(es, img);
    assert Covers(img, es);
    assert m[es[i].offset] == Resolved(es, img, base, i);
    ResolvedMoves(es, img, base, i);
  }

  lemma AllAllowed(es: seq<Fixup>, img: Image)
    requires Pairable(es, img)
    ensures forall i :: 0 <= i < |es| ==> Allowed(es[i].kind) && es[i].kind in {2, 4, 5, 6}
  {
  }

  lemma ResolvedMoves(es: seq<Fixup>, img: Image, base: int, i: int)
    requires Covers(img, es) && 0 <= i < |es| && Allowed(es[i].kind) && 0 <= base < WORD
    ensures WordMoved(es[i].kind, img[es[i].offset], Resolved(es, img, base, i), base)
  {
    hide WithLow, Rebase32, Rebase26, Wanted, HighOf, Address;
    var w := img[es[i].offset];
    Rebase32Moves(w, base);
    Rebase26Moves(w, base);
    HalfKept(w, HighOf(Address(w, Wanted(es, img, i).low, base)));
    HalfKept(w, Sext(w % HALF) + base);
  }

  /** Words no fixup names are as the linker left them. */
  lemma LoadedElsewhere(sections: seq<seq<Fixup>>, img: Image, base: int, x: int)
    requires ModuleCovers(sections, img) && ModuleDistinct(sections) && Accepts(sections, img) && x in img
    requires forall s, i :: 0 <= s < |sections| && 0 <= i < |sections[s]| ==> sections[s][i].offset != x
    ensures x in Loaded(sections, img, base) && Loaded(sections, img, base)[x] == img[x]
  {
    PipelineCorrect(sections, img, base);
  }

  /**
   A `lui` of a run and the LO16 that ends it, or any LO16 of the module with that symbol and low half: the address
   the two instructions build is the one they built before, plus the base.
   */
  lemma LoadedPair(sections: seq<seq<Fixup>>, img: Image, base: int, s: int, i: int, j: int, t: int, k: int)
    requires ModuleCovers(sections, img) && ModuleDistinct(sections) && Accepts(sections, img) && 0 <= base < WORD
    requires 0 <= s < |sections| && 0 <= i < j < |sections[s]| && 0 <= t < |sections| && 0 <= k < |sections[t]|
    requires (forall x :: i <= x < j ==> sections[s][x].kind == 5) && sections[s][j].kind == 6
    requires sections[t][k].kind == 6 && sections[t][k].symbol == sections[s][j].symbol
    requires sections[t][k].offset in img && sections[s][j].offset in img
    requires img[sections[t][k].offset] % 0x1_0000 == img[sections[s][j].offset] % 0x1_0000
    ensures var hi, lo, m := sections[s][i].offset, sections[t][k].offset, Loaded(sections, img, base);
      && hi in img && hi in m && lo in m
      && (var now := m[hi] % 0x1_0000 * 0x1_0000 + Immediate(m[lo]);
          var was := img[hi] % 0x1_0000 * 0x1_0000 + Immediate(img[lo]);
          (now - was - base) % 0x1_0000_0000 == 0)
  {
    hide ModuleResolved, Load, Output, Pairable, Wanted, KeyOf, NoStrayIn, ModuleCovers, ModuleDistinct;
    PipelineCorrect(sections, img, base);
    var m := Loaded(sections, img, base);
    RunsEnd(sections, img, s, i);
    WantedInRun(sections[s], img, i, j, sections[t][k]);
    EveryAddressMoves(sections, img, base, m, s, i, t, k);
    hide Sext;
    var hi, lo := sections[s][i].offset, sections[t][k].offset;
    ImmediateIs(m[lo]);
    ImmediateIs(img[lo]);
    SameSum(m[hi] % HALF * HALF + Immediate(m[lo]), img[hi] % HALF * HALF + Immediate(img[lo]) + base);
  }

  lemma RunsEnd(sections: seq<seq<Fixup>>, img: Image, s: int, i: int)
    requires Accepts(sections, img) && 0 <= s < |sections| && 0 <= i < |sections[s]| && sections[s][i].kind == R_HI16
    ensures RunOk(sections[s], i)
  {
    assert Pairable(sections[s], img);
  }

  /** A `lui` resolves against the LO16 that ends its run. */
  lemma WantedInRun(es: seq<Fixup>, img: Image, i: int, j: int, e: Fixup)
    requires 0 <= i < j < |es| && (forall x :: i <= x < j ==> es[x].kind == R_HI16) && es[j].kind == R_LO16
    requires e.symbol == es[j].symbol && RunOk(es, i) && e.offset in img && es[j].offset in img
    requires img[e.offset] % HALF == img[es[j].offset] % HALF
    ensures IsHi(es, i) && Wanted(es, img, i) == KeyOf(img, e)
  {
    RunEndIs(es, i, j);
  }

  lemma ImmediateIs(w: int)
    ensures Sext(w % HALF) == Immediate(w)
  {
  }

  lemma SameSum(a: int, b: int)
    requires a % WORD == b % WORD
    ensures (a - b) % WORD == 0
  {
    var p, q := a / WORD, b / WORD;
    assert a - b == (p - q) * WORD;
  }

  lemma HalfKept(word: int, low: int)
    requires 0 <= word < WORD
    ensures 0 <= WithLow(word, low) < WORD && WithLow(word, low) / HALF == word / HALF
  {
  }

  lemma Rebase32Moves(w: int, base: int)
    ensures 0 <= Rebase32(w, base) < WORD && (Rebase32(w, base) - base - w) % WORD == 0
  {
    var q := (w + base) / WORD;
    assert Rebase32(w, base) - base - w == -q * WORD;
  }

  lemma Rebase26Moves(w: int, base: int)
    requires 0 <= w < WORD && 0 <= base < WORD
    ensures var w' := Rebase26(w, base);
      && 0 <= w' < WORD && w' / 0x400_0000 == w / 0x400_0000
      && (base % 4 == 0 ==> w' % 0x400_0000 * 4 == (w % 0x400_0000 * 4 + base) % 0x1000_0000)
  {
    var t := w % 0x400_0000 * 4 + base;
    var q := t / WORD;
    assert t % WORD == t - q * WORD;
    if base % 4 == 0 { QuarterOf(t % WORD, t, q); }
  }

  lemma QuarterOf(r: int, t: int, q: int)
    requires r == t - q * WORD && t % 4 == 0
    ensures r / 4 % 0x400_0000 * 4 == t % 0x1000_0000
  {
    var n := t / 4;
    assert r == 4 * (n - q * 0x4000_0000);
    assert r / 4 == n - q * 0x4000_0000;
    var k := n / 0x400_0000;
    TargetField(r / 4, n - k * 0x400_0000, k - q * 16);
    TargetSpace(t, 4 * (n - k * 0x400_0000), k);
  }

  lemma TargetField(x: int, r: int, k: int)
    requires 0 <= r < 0x400_0000 && x == r + k * 0x400_0000
    ensures x % 0x400_0000 == r
  {
  }

  lemma TargetSpace(x: int, r: int, k: int)
    requires 0 <= r < 0x1000_0000 && x == r + k * 0x1000_0000
    ensures x % 0x1000_0000 == r
  {
  }

  // ----- readRelocations itself ---------------------------------------------------------------------------

  function Listed(free: map<Key, seq<int>>, key: Key): seq<int> {
    if key in free then free[key] else []
  }

  lemma {:induction false} RunEndIs(es: seq<Fixup>, i: int, j: int)
    requires 0 <= i <= j <= |es| && (forall k :: i <= k < j ==> es[k].kind == R_HI16)
    requires j == |es| || es[j].kind != R_HI16
    ensures RunEnd(es, i) == j
    decreases j - i
  {
    if i < j { RunEndIs(es, i + 1, j); }
  }

  /** Which key each HI16 before `n` resolves against. */
  ghost function WantedMap(es: seq<Fixup>, img: Image, n: int): map<int, Key>
    requires 0 <= n <= |es|
  {
    map i | 0 <= i < n && es[i].kind == R_HI16 :: Wanted(es, img, i)
  }

  lemma RunFacts(es: seq<Fixup>, img: Image, i: int, n: int)
    requires 0 <= i < n < |es| && es[n].kind != R_HI16 && forall k :: i <= k < n ==> es[k].kind == R_HI16
    ensures RunOk(es, i) <==> es[n].kind == R_LO16 && es[i].symbol == es[n].symbol
    ensures WantedMap(es, img, i + 1) == WantedMap(es, img, i)[i := Key(es[i].symbol, LowAt(img, es[n]))]
  {
    RunEndIs(es, i, n);
    var w := Wanted(es, img, i);
    assert w == Key(es[i].symbol, LowAt(img, es[n]));
    WantedMapNext(es, img, i);
  }

  lemma WantedMapNext(es: seq<Fixup>, img: Image, i: int)
    requires 0 <= i < |es| && es[i].kind == R_HI16
    ensures WantedMap(es, img, i + 1) == WantedMap(es, img, i)[i := Wanted(es, img, i)]
  {
    hide Wanted;
  }

  lemma WantedMapSkips(es: seq<Fixup>, img: Image, n: int)
    requires 0 <= n < |es| && es[n].kind != R_HI16
    ensures WantedMap(es, img, n + 1) == WantedMap(es, img, n)
  {
  }

  /** Entry `n` ends the run of HI16 from `start`: each of them resolves against it, or the run is refused. */
  method CloseRun(es: seq<Fixup>, img: Image, start: int, n: int, before: map<int, Key>)
    returns (ok: bool, wanted: map<int, Key>)
    requires 0 <= start <= n < |es| && es[n].kind != R_HI16
    requires forall i :: start <= i < n ==> es[i].kind == R_HI16
    requires before == WantedMap(es, img, start)
    ensures ok <==> forall i :: start <= i < n ==> RunOk(es, i)
    ensures ok ==> wanted == WantedMap(es, img, n + 1)
  {
    hide RunEnd, Wanted, RunOk, WantedMap;
    wanted := before;
    var low := LowAt(img, es[n]);
    var hi := start;
    while hi < n
      invariant start <= hi <= n
      invariant wanted == WantedMap(es, img, hi)
      invariant forall i :: start <= i < hi ==> RunOk(es, i)
    {
      RunFacts(es, img, hi, n);
      if es[n].kind != R_LO16 || es[hi].symbol != es[n].symbol {
        assert !RunOk(es, hi);
        return false, wanted;
      }
      wanted := wanted[hi := Key(es[n].symbol, low)];
      hi := hi + 1;
    }
    WantedMapSkips(es, img, n);
    ok := true;
  }

  /** The runs of HI16: which key each resolves against, or none when a run does not end in its LO16. */
  method FindRuns(es: seq<Fixup>, img: Image) returns (r: Option<map<int, Key>>)
    ensures r.Some? <==> RunsOk(es)
    ensures r.Some? ==> r.value == WantedMap(es, img, |es|)
  {
    var n := 0;
    while n < |es|
      invariant 0 <= n <= |es| && forall i :: 0 <= i < n ==> Allowed(es[i].kind)
    {
      if !Allowed(es[n].kind) { return None; }
      n := n + 1;
    }
    var wanted: map<int, Key> := map[];
    var start := 0;
    n := 0;
    while n < |es|
      invariant 0 <= start <= n <= |es|
      invariant forall i :: start <= i < n ==> es[i].kind == R_HI16
      invariant wanted == WantedMap(es, img, start)
      invariant forall i :: 0 <= i < start && es[i].kind == R_HI16 ==> RunOk(es, i)
    {
      if es[n].kind == R_HI16 {
        n := n + 1;
        continue;
      }
      var ok;
      ok, wanted := CloseRun(es, img, start, n, wanted);
      if !ok { return None; }
      n := n + 1;
      start := n;
    }
    if start < |es| {
      RunEndIs(es, start, |es|);
      assert !RunOk(es, start);
      return None;
    }
    r := Some(wanted);
  }

  /** The LO16 entries by key, in order. */
  method ListLos(es: seq<Fixup>, img: Image) returns (free: map<Key, seq<int>>)
    ensures forall key :: Listed(free, key) == Los(es, img, key, |es|)
  {
    free := map[];
    var n := 0;
    while n < |es|
      invariant 0 <= n <= |es|
      invariant forall key :: Listed(free, key) == Los(es, img, key, n)
    {
      if es[n].kind == R_LO16 {
        var key := KeyOf(img, es[n]);
        free := free[key := Listed(free, key) + [n]];
      }
      n := n + 1;
    }
  }

  /** The first `n` HI16 have taken their mates, and `free` holds what is left of each list. */
  ghost predicate HandedOut(es: seq<Fixup>, img: Image, n: int, free: map<Key, seq<int>>)
    requires 0 <= n <= |es|
  {
    forall key: Key :: His(es, img, key, n) <= |Los(es, img, key, |es|)|
      && Listed(free, key) == Los(es, img, key, |es|)[His(es, img, key, n)..]
  }

  ghost predicate ServedTo(es: seq<Fixup>, img: Image, n: int)
    requires 0 <= n <= |es|
  {
    forall i :: 0 <= i < n && es[i].kind == R_HI16 ==>
      His(es, img, Wanted(es, img, i), i) < |Los(es, img, Wanted(es, img, i), |es|)|
  }

  ghost function Mates(es: seq<Fixup>, img: Image, n: int): map<int, int>
    requires 0 <= n <= |es|
  {
    map i | 0 <= i < n && es[i].kind == R_HI16 :: Mate(es, img, i)
  }

  ghost function MateSet(es: seq<Fixup>, img: Image, n: int): set<int>
    requires 0 <= n <= |es|
  {
    set i | 0 <= i < n && es[i].kind == R_HI16 :: Mate(es, img, i)
  }

  lemma HandOut(es: seq<Fixup>, img: Image, n: int, free: map<Key, seq<int>>)
    requires 0 <= n < |es| && es[n].kind == R_HI16 && HandedOut(es, img, n, free)
    ensures var key := Wanted(es, img, n); var c := Listed(free, key);
      && (c == [] ==> !Served(es, img))
      && (c != [] ==> (
            && c[0] == Mate(es, img, n) && HandedOut(es, img, n + 1, free[key := c[1..]])
            && His(es, img, key, n) < |Los(es, img, key, |es|)|))
  {
    var key := Wanted(es, img, n);
    var c := Listed(free, key);
    var los, h := Los(es, img, key, |es|), His(es, img, key, n);
    assert h <= |los| && c == los[h..];
    if c != [] {
      hide Los, His;
      forall k: Key
        ensures His(es, img, k, n + 1) <= |Los(es, img, k, |es|)|
        ensures Listed(free[key := c[1..]], k) == Los(es, img, k, |es|)[His(es, img, k, n + 1)..]
      {
        HandOutAt(es, img, n, free, k);
      }
    }
  }

  /** Handing out one LO16 moves the key it was wanted for on by one, and no other. */
  lemma HandOutAt(es: seq<Fixup>, img: Image, n: int, free: map<Key, seq<int>>, k: Key)
    requires 0 <= n < |es| && es[n].kind == R_HI16 && HandedOut(es, img, n, free)
    requires Listed(free, Wanted(es, img, n)) != []
    ensures var key := Wanted(es, img, n); var c := Listed(free, key);
      && His(es, img, k, n + 1) <= |Los(es, img, k, |es|)|
      && Listed(free[key := c[1..]], k) == Los(es, img, k, |es|)[His(es, img, k, n + 1)..]
  {
    HisNext(es, img, k, n);
    hide Los, His, Wanted;
    assert His(es, img, k, n) <= |Los(es, img, k, |es|)|;
    assert Listed(free, k) == Los(es, img, k, |es|)[His(es, img, k, n)..];
  }

  lemma HisNext(es: seq<Fixup>, img: Image, key: Key, n: int)
    requires 0 <= n < |es|
    ensures His(es, img, key, n + 1) ==
      His(es, img, key, n) + if es[n].kind == R_HI16 && Wanted(es, img, n) == key then 1 else 0
  {
  }

  lemma PassOver(es: seq<Fixup>, img: Image, n: int, free: map<Key, seq<int>>)
    requires 0 <= n < |es| && es[n].kind != R_HI16 && HandedOut(es, img, n, free)
    ensures HandedOut(es, img, n + 1, free)
  {
    forall k: Key
      ensures His(es, img, k, n + 1) <= |Los(es, img, k, |es|)|
      ensures Listed(free, k) == Los(es, img, k, |es|)[His(es, img, k, n + 1)..]
    {
      assert His(es, img, k, n) <= |Los(es, img, k, |es|)|;
      assert Listed(free, k) == Los(es, img, k, |es|)[His(es, img, k, n)..];
    }
  }

  /** Give each HI16 a LO16 of the key it wants, one apiece. */
  method Assign(es: seq<Fixup>, img: Image, wanted: map<int, Key>, lists: map<Key, seq<int>>)
    returns (ok: bool, partner: map<int, int>, taken: set<int>, paired: set<Key>)
    requires RunsOk(es) && wanted == WantedMap(es, img, |es|)
    requires forall key :: Listed(lists, key) == Los(es, img, key, |es|)
    ensures ok <==> Pairable(es, img)
    ensures ok ==>
      partner == Mates(es, img, |es|) && taken == MateSet(es, img, |es|) && paired == WantedKeys(es, img, |es|)
  {
    hide HandedOut, His, Los, Mate, Wanted, RunsOk, Mates, MateSet, WantedKeys, WantedMap;
    var free := lists;
    partner, taken, paired := map[], {}, {};
    var n := 0;
    HandedOutStart(es, img, lists);
    while n < |es|
      invariant 0 <= n <= |es| && HandedOut(es, img, n, free) && ServedTo(es, img, n)
      invariant partner == Mates(es, img, n) && taken == MateSet(es, img, n) && paired == WantedKeys(es, img, n)
    {
      PartnersGrow(es, img, n);
      if es[n].kind == R_HI16 {
        HandOut(es, img, n, free);
        var key := wanted[n];
        var candidates := Listed(free, key);
        if candidates == [] { return false, partner, taken, paired; }
        free := free[key := candidates[1..]];
        partner := partner[n := candidates[0]];
        taken := taken + {candidates[0]};
        paired := paired + {key};
      } else {
        PassOver(es, img, n, free);
      }
      n := n + 1;
    }
    ok := true;
  }

  lemma PartnersGrow(es: seq<Fixup>, img: Image, n: int)
    requires 0 <= n < |es|
    ensures es[n].kind == R_HI16 ==> (
      && n in WantedMap(es, img, |es|) && WantedMap(es, img, |es|)[n] == Wanted(es, img, n)
      && Mates(es, img, n + 1) == Mates(es, img, n)[n := Mate(es, img, n)]
      && MateSet(es, img, n + 1) == MateSet(es, img, n) + {Mate(es, img, n)}
      && WantedKeys(es, img, n + 1) == WantedKeys(es, img, n) + {Wanted(es, img, n)})
    ensures es[n].kind != R_HI16 ==> (
      && Mates(es, img, n + 1) == Mates(es, img, n)
      && MateSet(es, img, n + 1) == MateSet(es, img, n)
      && WantedKeys(es, img, n + 1) == WantedKeys(es, img, n))
  {
    hide Mate, Wanted;
  }

  lemma HandedOutStart(es: seq<Fixup>, img: Image, lists: map<Key, seq<int>>)
    requires forall key :: Listed(lists, key) == Los(es, img, key, |es|)
    ensures HandedOut(es, img, 0, lists)
    ensures Mates(es, img, 0) == map[] && MateSet(es, img, 0) == {} && WantedKeys(es, img, 0) == {}
  {
  }

  /** One section: the stream written, the keys that found a HI16, and the LO16 keys left unpaired. */
  method ReadSection(es: seq<Fixup>, img: Image) returns (ok: bool, out: seq<Rel>, paired: set<Key>, unpaired: set<Key>)
    ensures ok <==> Pairable(es, img)
    ensures ok ==> out == Emitted(es, img, |es|)
    ensures ok ==> paired == WantedKeys(es, img, |es|) && unpaired == LeftKeys(es, img, |es|)
  {
    hide RunsOk, Served, Mate, Wanted, Emitted, WantedMap, Los;
    out, paired, unpaired := [], {}, {};
    var found := FindRuns(es, img);
    if found.None? { return false, out, paired, unpaired; }
    var free := ListLos(es, img);
    var partner, taken;
    ok, partner, taken, paired := Assign(es, img, found.value, free);
    if !ok { return; }
    EmittedNone(es, img);
    var n := 0;
    while n < |es|
      invariant 0 <= n <= |es| && Pairable(es, img)
      invariant out == Emitted(es, img, n)
      invariant unpaired == LeftKeys(es, img, n)
    {
      EmittedStep(es, img, n + 1);
      if n in taken {
        HiNotMate(es, img, n);
      } else {
        out := out + [Rel(es[n].offset, es[n].kind)];
        if es[n].kind == R_HI16 {
          MateFacts(es, img, n);
          out := out + [Rel(es[partner[n]].offset, R_LO16)];
        } else if es[n].kind == R_LO16 {
          unpaired := unpaired + {KeyOf(img, es[n])};
        }
      }
      n := n + 1;
    }
  }

  lemma HiNotMate(es: seq<Fixup>, img: Image, k: int)
    requires Pairable(es, img) && 0 <= k < |es| && Taken(es, img, k)
    ensures es[k].kind == R_LO16 && Slot(es, img, k) == []
  {
    var i :| 0 <= i < |es| && es[i].kind == R_HI16 && Mate(es, img, i) == k;
    MateFacts(es, img, i);
  }

  /** mkirx's readRelocations over the loaded sections of the linked file. */
  method ReadRelocations(sections: seq<seq<Fixup>>, img: Image) returns (r: Option<seq<Rel>>)
    ensures r.Some? <==> Accepts(sections, img)
    ensures r.Some? ==> r.value == Output(sections, img, |sections|)
  {
    hide Pairable, Emitted, WantedKeys, LeftKeys, NoStrayIn;
    var out: seq<Rel>, paired: set<Key>, unpaired: set<Key> := [], {}, {};
    var n := 0;
    while n < |sections|
      invariant 0 <= n <= |sections| && PairableTo(sections, img, n)
      invariant out == Output(sections, img, n)
      invariant paired == ModuleWanted(sections, img, n) && unpaired == ModuleLeft(sections, img, n)
    {
      var ok, some, hits, misses := ReadSection(sections[n], img);
      if !ok { return None; }
      out, paired, unpaired := out + some, paired + hits, unpaired + misses;
      n := n + 1;
    }
    NoStrayIff(sections, img, |sections|);
    if !(unpaired <= paired) { return None; }
    r := Some(out);
  }
}
