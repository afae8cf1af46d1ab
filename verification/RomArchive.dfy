/**
 The ROM archive: its builder (tools/mkromdir.py) and its two readers, the boot code's scan
 (src/boot/archive.hpp) and the tool's parser (tools/romdir.py).
 */
module RomArchive {
  import opened Common

  const ROW: nat := 16
  const NAME: nat := 10

  // ----- the manifest and what it asks for ------------------------------------------------------

  datatype Source = Table | ExtInfo | Zeros(n: nat) | File(data: seq<int>)
  datatype Item = Item(name: seq<int>, source: Source, ext: seq<int>)

  const RESET: seq<int> := ['R' as int, 'E' as int, 'S' as int, 'E' as int, 'T' as int]
  const ROMDIR: seq<int> := ['R' as int, 'O' as int, 'M' as int, 'D' as int, 'I' as int, 'R' as int]
  const DASH: seq<int> := ['-' as int]

  function Align(n: nat): (a: nat)
    ensures a % ROW == 0 && n <= a < n + ROW
  {
    (n + ROW - 1) / ROW * ROW
  }

  function Zero(n: nat): (z: seq<int>)
    ensures |z| == n && forall i :: 0 <= i < n ==> z[i] == 0
  {
    seq(n, i => 0)
  }

  function ExtAll(s: seq<Item>): seq<int> {
    if s == [] then [] else s[0].ext + ExtAll(s[1..])
  }

  /** An entry's size, known from the manifest before anything is written. */
  function SizeOf(m: seq<Item>, e: Item): nat {
    match e.source
    case Table => (|m| + 1) * ROW
    case ExtInfo => |ExtAll(m)|
    case Zeros(n) => n
    case File(data) => |data|
  }

  function Le16(n: nat): (b: seq<int>) ensures |b| == 2 { [n % 0x100, n / 0x100 % 0x100] }

  function Le32(n: nat): (b: seq<int>) ensures |b| == 4 { Le16(n % 0x1_0000) + Le16(n / 0x1_0000 % 0x1_0000) }

  function PadName(name: seq<int>): (p: seq<int>)
    requires |name| <= NAME
    ensures |p| == NAME
  {
    name + Zero(NAME - |name|)
  }

  /** One row of the table. */
  function RowOf(m: seq<Item>, e: Item): (r: seq<int>)
    requires |e.name| <= NAME
    ensures |r| == ROW
  {
    PadName(e.name) + Le16(|e.ext|) + Le32(SizeOf(m, e))
  }

  ghost predicate ShortNames(s: seq<Item>) { forall i :: 0 <= i < |s| ==> |s[i].name| <= NAME }

  /** The first `k` rows. */
  function Rows(m: seq<Item>, k: nat): (r: seq<int>)
    requires k <= |m| && ShortNames(m)
    ensures |r| == ROW * k
  {
    if k == 0 then [] else Rows(m, k - 1) + RowOf(m, m[k - 1])
  }

  function TableOf(m: seq<Item>): (t: seq<int>)
    requires ShortNames(m)
    ensures |t| == (|m| + 1) * ROW
  {
    Rows(m, |m|) + Zero(ROW)
  }

  function DataOf(m: seq<Item>, e: Item): (d: seq<int>)
    requires ShortNames(m)
    ensures |d| == SizeOf(m, e)
  {
    match e.source
    case Table => TableOf(m)
    case ExtInfo => ExtAll(m)
    case Zeros(n) => Zero(n)
    case File(data) => data
  }

  /** Where each entry goes: the aligned sizes of what precedes it. */
  function Offset(m: seq<Item>, k: nat): nat
    requires k <= |m|
  {
    if k == 0 then 0 else Offset(m, k - 1) + Align(SizeOf(m, m[k - 1]))
  }

  function ExtOffset(m: seq<Item>, k: nat): nat
    requires k <= |m|
  {
    if k == 0 then 0 else ExtOffset(m, k - 1) + |m[k - 1].ext|
  }

  /** The first `k` entries, each padded. */
  function Padded(m: seq<Item>, k: nat): (p: seq<int>)
    requires k <= |m| && ShortNames(m)
    ensures |p| == Offset(m, k)
  {
    if k == 0 then []
    else
      var d := DataOf(m, m[k - 1]);
      Padded(m, k - 1) + d + Zero(Align(|d|) - |d|)
  }

  /** The contents: the last entry's padding is left off. */
  function Contents(m: seq<Item>): seq<int>
    requires m != [] && ShortNames(m)
  {
    Padded(m, |m| - 1) + DataOf(m, m[|m| - 1])
  }

  /** The image: zero-filled to the size asked for, which the contents must not exceed. */
  function ImageOf(m: seq<Item>, size: Option<nat>): Option<seq<int>>
    requires m != [] && ShortNames(m)
  {
    match size
    case None => Some(Contents(m))
    case Some(n) => if |Contents(m)| > n then None else Some(Contents(m) + Zero(n - |Contents(m)|))
  }

  // ----- building -------------------------------------------------------------------------------

  method RenderTable(m: seq<Item>) returns (out: seq<int>)
    requires ShortNames(m)
    ensures out == TableOf(m)
  {
    out := [];
    var i := 0;
    while i < |m|
      invariant 0 <= i <= |m| && out == Rows(m, i)
    {
      out := out + PadName(m[i].name);
      out := out + (Le16(|m[i].ext|) + Le32(SizeOf(m, m[i])));
      assert out == Rows(m, i) + RowOf(m, m[i]);
      i := i + 1;
    }
    out := out + Zero(ROW);
  }

  lemma TableData(m: seq<Item>, e: Item)
    requires ShortNames(m)
    ensures e.source.Table? ==> DataOf(m, e) == TableOf(m)
  {
  }

  lemma PaddedNone(m: seq<Item>)
    requires ShortNames(m)
    ensures Padded(m, 0) == []
  {
  }

  lemma PaddedNext(m: seq<Item>, i: nat)
    requires i < |m| && ShortNames(m)
    ensures var d := DataOf(m, m[i]);
      && (i == |m| - 1 ==> Contents(m) == Padded(m, i) + d)
      && Padded(m, i + 1) == Padded(m, i) + d + Zero(Align(|d|) - |d|)
  {
    hide DataOf, Align;
  }

  method Assemble(m: seq<Item>, size: Option<nat>) returns (image: Option<seq<int>>)
    requires m != [] && ShortNames(m)
    ensures image == ImageOf(m, size)
  {
    hide Align, SizeOf, TableOf, DataOf, ShortNames, Padded, Contents;
    PaddedNone(m);
    var table := RenderTable(m);
    var out := [];
    var i := 0;
    while i < |m|
      invariant 0 <= i <= |m| && out == if i == |m| then Contents(m) else Padded(m, i)
    {
      TableData(m, m[i]);
      PaddedNext(m, i);
      var data := if m[i].source.Table? then table else DataOf(m, m[i]);
      out := out + data;
      if i != |m| - 1 {
        out := out + Zero(Align(|data|) - |data|);
      }
      i := i + 1;
    }
    if size.Some? {
      if |out| > size.value { return None; }
      out := out + Zero(size.value - |out|);
    }
    image := Some(out);
  }

  /** What is placed stays in front of what is placed later. */
  lemma {:induction false} PaddedHolds(m: seq<Item>, i: nat, k: nat)
    requires i < k <= |m| && ShortNames(m)
    ensures Padded(m, i) + DataOf(m, m[i]) <= Padded(m, k)
  {
    hide DataOf, Align, SizeOf;
    var placed, d := Padded(m, i) + DataOf(m, m[i]), DataOf(m, m[k - 1]);
    if i < k - 1 {
      PaddedHolds(m, i, k - 1);
      PrefixMore(placed, Padded(m, k - 1), d);
    }
    PrefixMore(placed, Padded(m, k - 1) + d, Zero(Align(|d|) - |d|));
  }

  lemma ContentsHold(m: seq<Item>, i: nat)
    requires i < |m| && ShortNames(m)
    ensures Padded(m, i) + DataOf(m, m[i]) <= Contents(m)
  {
    hide DataOf, Padded, ShortNames, Offset, SizeOf;
    var last := |m| - 1;
    if i < last {
      PaddedHolds(m, i, last);
      PrefixMore(Padded(m, i) + DataOf(m, m[i]), Padded(m, last), DataOf(m, m[last]));
    }
  }

  lemma PrefixMore(a: seq<int>, b: seq<int>, c: seq<int>)
    requires a <= b
    ensures a <= b + c
  {
  }

  lemma PrefixSlice(a: seq<int>, d: seq<int>, s: seq<int>)
    requires a + d <= s
    ensures |a| + |d| <= |s| && s[|a|..|a| + |d|] == d
  {
    assert s[..|a + d|] == a + d;
    assert s[|a|..|a| + |d|] == s[..|a + d|][|a|..];
  }

  /** Every entry's bytes lie at its offset. */
  lemma ImageHolds(m: seq<Item>, size: Option<nat>, i: nat)
    requires i < |m| && ShortNames(m) && ImageOf(m, size).Some?
    ensures var image := ImageOf(m, size).value;
      && Offset(m, i) + SizeOf(m, m[i]) <= |image|
      && image[Offset(m, i)..Offset(m, i) + SizeOf(m, m[i])] == DataOf(m, m[i])
  {
    hide DataOf, Padded, Contents;
    ContentsHold(m, i);
    PrefixSlice(Padded(m, i), DataOf(m, m[i]), ImageOf(m, size).value);
  }

  /** A file's entry is the file, a run of zeros is that, and the table and the metadata stand where they are named. */
  lemma ImageMeans(m: seq<Item>, size: Option<nat>, i: nat)
    requires i < |m| && ShortNames(m) && ImageOf(m, size).Some?
    ensures match m[i].source
      case File(data) => Holds(ImageOf(m, size).value, Offset(m, i), data)
      case Zeros(n) => Holds(ImageOf(m, size).value, Offset(m, i), seq(n, i => 0))
      case Table => Holds(ImageOf(m, size).value, Offset(m, i), TableOf(m))
      case ExtInfo => Holds(ImageOf(m, size).value, Offset(m, i), ExtAll(m))
  {
    hide ImageOf, TableOf, ExtAll, Offset;
    ImageHolds(m, size, i);
    if m[i].source.Zeros? { assert DataOf(m, m[i]) == seq(m[i].source.n, i => 0); }
  }

  ghost predicate Holds(image: seq<int>, at: nat, s: seq<int>) {
    at + |s| <= |image| && image[at..at + |s|] == s
  }

  /** How long the image is and when it is refused; past the last entry's bytes are zeros. */
  lemma ImageRest(m: seq<Item>, size: Option<nat>)
    requires m != [] && ShortNames(m)
    ensures var n := Offset(m, |m| - 1) + SizeOf(m, m[|m| - 1]);
      && (ImageOf(m, size).None? <==> size.Some? && size.value < n)
      && (ImageOf(m, size).Some? ==>
           && |ImageOf(m, size).value| == (if size.Some? then size.value else n)
           && forall x :: n <= x < |ImageOf(m, size).value| ==> ImageOf(m, size).value[x] == 0)
  {
    hide DataOf, Align, SizeOf, Offset, Padded;
  }

  /** Between one entry's bytes and the next entry are zeros. */
  lemma PaddingIsZero(m: seq<Item>, size: Option<nat>, i: nat, x: int)
    requires ShortNames(m) && i < |m| - 1 && Offset(m, i) + SizeOf(m, m[i]) <= x < Offset(m, i + 1)
    requires ImageOf(m, size).Some?
    ensures 0 <= x < |ImageOf(m, size).value| && ImageOf(m, size).value[x] == 0
  {
    hide DataOf, Align, SizeOf, Offset, Padded;
    PaddingZero(m, i, |m| - 1, x);
  }

  lemma {:induction false} PaddingZero(m: seq<Item>, i: nat, k: nat, x: int)
    requires i < k < |m| && ShortNames(m) && Offset(m, i) + SizeOf(m, m[i]) <= x < Offset(m, i + 1)
    ensures 0 <= x < Offset(m, k) && Padded(m, k)[x] == 0
  {
    hide DataOf, Align, SizeOf;
    if i < k - 1 { PaddingZero(m, i, k - 1, x); }
  }

  // ----- reading a row --------------------------------------------------------------------------

  function ByteAt(image: seq<int>, i: nat): int { if i < |image| then image[i] else 0 }

  function NameAt(image: seq<int>, at: nat): (n: seq<int>)
    ensures |n| == NAME
  {
    seq(NAME, i requires i >= 0 => ByteAt(image, at + i))
  }

  function Word16(image: seq<int>, at: nat): int { ByteAt(image, at) + 0x100 * ByteAt(image, at + 1) }

  function Word32(image: seq<int>, at: nat): int { Word16(image, at) + 0x1_0000 * Word16(image, at + 2) }

  function SizeAt(image: seq<int>, at: nat): nat {
    var n := Word32(image, at + 12);
    if n < 0 then 0 else n
  }

  /** What a manifest must satisfy to be packed: ASCII names, and sizes the row's fields can hold. */
  ghost predicate Packable(m: seq<Item>, e: Item) {
    && 0 < |e.name| <= NAME && (forall i :: 0 <= i < |e.name| ==> 0 < e.name[i] < 0x80)
    && |e.ext| < 0x1_0000 && SizeOf(m, e) < 0x1_0000_0000
  }

  ghost predicate Manifest(m: seq<Item>) {
    forall i :: 0 <= i < |m| ==> Packable(m, m[i])
  }

  lemma Le32Reads(n: nat)
    requires n < 0x1_0000_0000
    ensures var b := Le32(n); b[0] + 0x100 * b[1] + 0x1_0000 * (b[2] + 0x100 * b[3]) == n
    ensures var b := Le16(n % 0x1_0000); b[0] + 0x100 * b[1] == n % 0x1_0000
  {
    var lo, hi := n % 0x1_0000, n / 0x1_0000;
    assert n == lo + 0x1_0000 * hi && hi < 0x1_0000;
    assert lo == lo % 0x100 + 0x100 * (lo / 0x100) && hi == hi % 0x100 + 0x100 * (hi / 0x100);
  }

  /** A row reads back as the entry it was rendered from. */
  lemma RowReads(image: seq<int>, at: nat, m: seq<Item>, e: Item)
    requires Packable(m, e) && at + ROW <= |image| && image[at..at + ROW] == RowOf(m, e)
    ensures NameAt(image, at) == PadName(e.name) && Word16(image, at + 10) == |e.ext|
    ensures SizeAt(image, at) == SizeOf(m, e)
  {
    var row := image[at..at + ROW];
    assert forall i :: 0 <= i < ROW ==> image[at + i] == row[i];
    assert row[..NAME] == PadName(e.name);
    forall i | 0 <= i < NAME
      ensures NameAt(image, at)[i] == PadName(e.name)[i]
    {
      assert NameAt(image, at)[i] == ByteAt(image, at + i) == image[at + i] == row[..NAME][i];
    }
    Le32Reads(|e.ext|);
    Le32Reads(SizeOf(m, e));
    assert row[10..12] == Le16(|e.ext|) && row[12..16] == Le32(SizeOf(m, e));
    assert row[10] == row[10..12][0] && row[11] == row[10..12][1];
    var b := row[12..16];
    assert row[12] == b[0] && row[13] == b[1] && row[14] == b[2] && row[15] == b[3];
  }

  /** A row byte by byte: the name with zeros after it, then the two sizes, lowest byte first. */
  lemma RowBytes(m: seq<Item>, e: Item)
    requires Packable(m, e)
    ensures var r := RowOf(m, e);
      && |r| == 16
      && (forall i :: 0 <= i < 10 ==> r[i] == if i < |e.name| then e.name[i] else 0)
      && (forall i :: 10 <= i < 16 ==> 0 <= r[i] < 0x100)
      && r[10] + 0x100 * r[11] == |e.ext|
      && r[12] + 0x100 * r[13] + 0x1_0000 * r[14] + 0x100_0000 * r[15] == SizeOf(m, e)
  {
    var r := RowOf(m, e);
    Le32Reads(|e.ext|);
    Le32Reads(SizeOf(m, e));
    var b := Le32(SizeOf(m, e));
    assert r[12] == b[0] && r[13] == b[1] && r[14] == b[2] && r[15] == b[3];
    assert r[10] == Le16(|e.ext|)[0] && r[11] == Le16(|e.ext|)[1];
  }

  /** The table holds the manifest's rows in order, and then a row of zeros. */
  lemma TableRows(m: seq<Item>, k: nat)
    requires Manifest(m) && k <= |m| && ShortNames(m)
    ensures |TableOf(m)| == 16 * |m| + 16
    ensures TableOf(m)[16 * k..16 * k + 16] == if k < |m| then RowOf(m, m[k]) else seq(16, i => 0)
  {
    var rows := Rows(m, |m|);
    if k < |m| {
      RowsAt(m, |m|, k);
      assert TableOf(m)[16 * k..16 * k + 16] == rows[16 * k..16 * k + 16];
    } else {
      assert TableOf(m)[16 * k..16 * k + 16] == Zero(16) == seq(16, i => 0);
    }
  }

  lemma {:induction false} RowsAt(m: seq<Item>, n: nat, k: nat)
    requires k < n <= |m| && ShortNames(m)
    ensures Rows(m, n)[16 * k..16 * k + 16] == RowOf(m, m[k])
  {
    if k < n - 1 {
      RowsAt(m, n - 1, k);
      assert Rows(m, n)[16 * k..16 * k + 16] == Rows(m, n - 1)[16 * k..16 * k + 16];
    }
  }

  /** A name without its trailing NULs. */
  function RStrip(s: seq<int>): seq<int> {
    if s != [] && s[|s| - 1] == 0 then RStrip(s[..|s| - 1]) else s
  }

  /** What is stripped is zeros, and all of them. */
  lemma {:induction false} RStripIs(s: seq<int>, t: seq<int>)
    ensures RStrip(s) == t <==>
      && |t| <= |s| && (t != [] ==> t[|t| - 1] != 0)
      && s[..|t|] == t && forall i :: |t| <= i < |s| ==> s[i] == 0
  {
    if s != [] && s[|s| - 1] == 0 {
      var r := s[..|s| - 1];
      RStripIs(r, t);
      if |t| < |s| { assert r[..|t|] == s[..|t|]; }
    } else {
      if |t| == |s| { assert s[..|t|] == s; }
    }
  }

  lemma {:induction false} RStripPad(name: seq<int>, n: nat)
    requires name != [] ==> name[|name| - 1] != 0
    ensures RStrip(name + Zero(n)) == name
  {
    if n == 0 {
      assert name + Zero(0) == name;
    } else {
      var s := name + Zero(n);
      assert s[..|s| - 1] == name + Zero(n - 1);
      RStripPad(name, n - 1);
    }
  }

  lemma PadDiffers(a: seq<int>, b: seq<int>)
    requires 0 < |a| <= NAME && 0 < |b| <= NAME && a[|a| - 1] != 0 && b[|b| - 1] != 0 && a != b
    ensures PadName(a) != PadName(b)
  {
    RStripPad(a, NAME - |a|);
    RStripPad(b, NAME - |b|);
  }

  // ----- the boot code's scan -------------------------------------------------------------------

  /** A candidate table: a row named RESET whose size is aligned. */
  predicate Candidate(image: seq<int>, at: nat) {
    NameAt(image, at) == PadName(RESET) && SizeAt(image, at) % ROW == 0
  }

  predicate Terminator(image: seq<int>, at: nat) {
    NameAt(image, at)[..8] == Zero(8) && SizeAt(image, at) == 0
  }

  datatype Found = Found(address: int, size: nat)

  function Walk(image: seq<int>, at: nat, file: int, want: seq<int>): Option<Found>
    decreases if at < |image| then |image| - at else 0
  {
    if NameAt(image, at) == want then Some(Found(file, SizeAt(image, at)))
    else if Terminator(image, at) || at >= |image| then None
    else Walk(image, at + ROW, file + Align(SizeAt(image, at)), want)
  }

  function Scan(image: seq<int>, at: nat, want: seq<int>): Option<Found>
    decreases if at < |image| then |image| - at else 0
  {
    if at >= |image| then None
    else if Candidate(image, at) then Walk(image, at, at - Align(SizeAt(image, at)), want)
    else Scan(image, at + ROW, want)
  }

  lemma PastTheEnd(image: seq<int>, at: nat)
    requires at >= |image|
    ensures Terminator(image, at)
  {
    forall i | 0 <= i < 8
      ensures NameAt(image, at)[..8][i] == Zero(8)[i]
    {
      assert NameAt(image, at)[i] == ByteAt(image, at + i);
    }
  }

  /** archive.hpp's find, over the whole image; bytes past its end read as zero. */
  method ArchiveFind(image: seq<int>, want: seq<int>) returns (found: Option<Found>)
    requires |want| == NAME
    ensures found == Scan(image, 0, want)
  {
    hide NameAt, SizeAt, Candidate, Terminator;
    var at := 0;
    while at < |image|
      invariant Scan(image, 0, want) == Scan(image, at, want)
      decreases if at < |image| then |image| - at else 0
    {
      if Candidate(image, at) {
        var file := at - Align(SizeAt(image, at));
        var entry := at;
        while true
          invariant Scan(image, 0, want) == Walk(image, entry, file, want)
          decreases if entry < |image| then |image| - entry else 0
        {
          if NameAt(image, entry) == want { return Some(Found(file, SizeAt(image, entry))); }
          if entry >= |image| { PastTheEnd(image, entry); }
          if Terminator(image, entry) { return None; }
          file := file + Align(SizeAt(image, entry));
          entry := entry + ROW;
        }
      }
      at := at + ROW;
    }
    found := None;
  }

  // ----- the tool's parser ----------------------------------------------------------------------

  datatype Entry = Entry(name: seq<int>, extSize: int, size: nat, offset: nat, extOffset: int)

  /** What findTable accepts at a place: `RESET\\0`, then a row named ROMDIR of a whole positive number of rows. */
  predicate Accepts(image: seq<int>, at: nat) {
    && at + 2 * ROW <= |image| && image[at..at + 6] == RESET + [0] && RStrip(image[at + ROW..at + ROW + NAME]) == ROMDIR
    && SizeAt(image, at + ROW) % ROW == 0 && SizeAt(image, at + ROW) > 0
  }

  ghost predicate Bytes(image: seq<int>) {
    forall i :: 0 <= i < |image| ==> 0 <= image[i] < 0x100
  }

  /** The bytes `s` stand at a place; past the end of the image stand zeros. */
  ghost predicate Stands(image: seq<int>, at: nat, s: seq<int>) {
    forall i :: 0 <= i < |s| ==> ByteAt(image, at + i) == s[i]
  }

  lemma SizeBytes(image: seq<int>, at: nat)
    requires Bytes(image)
    ensures SizeAt(image, at) == ByteAt(image, at + 12) + 0x100 * ByteAt(image, at + 13)
      + 0x1_0000 * ByteAt(image, at + 14) + 0x100_0000 * ByteAt(image, at + 15)
    ensures SizeAt(image, at) % 16 == ByteAt(image, at + 12) % 16
    ensures SizeAt(image, at) == 0 <==> Stands(image, at + 12, [0, 0, 0, 0])
  {
    var a, b, c, d := ByteAt(image, at + 12), ByteAt(image, at + 13), ByteAt(image, at + 14), ByteAt(image, at + 15);
    assert 0 <= a && 0 <= b && 0 <= c && 0 <= d;
    SixteenDivides(a, 0x10 * b + 0x1000 * c + 0x10_0000 * d);
    var z := [0, 0, 0, 0];
    assert Stands(image, at + 12, z) <==> a == z[0] && b == z[1] && c == z[2] && d == z[3];
  }

  lemma SixteenDivides(a: int, q: int)
    ensures (a + 16 * q) % 16 == a % 16
  {
  }

  lemma NameStands(image: seq<int>, at: nat, name: seq<int>)
    requires |name| <= NAME
    ensures NameAt(image, at)[..|name|] == name <==> Stands(image, at, name)
  {
    var n := NameAt(image, at)[..|name|];
    assert forall i :: 0 <= i < |n| ==> n[i] == ByteAt(image, at + i);
    assert n == name <==> forall i :: 0 <= i < |name| ==> n[i] == name[i];
  }

  /** What the boot code's scan looks for and stops at, in the image's own bytes. */
  lemma CandidateMeans(image: seq<int>, at: nat)
    requires Bytes(image)
    ensures Candidate(image, at) <==>
      Stands(image, at, [0x52, 0x45, 0x53, 0x45, 0x54, 0, 0, 0, 0, 0]) && ByteAt(image, at + 12) % 16 == 0
    ensures Terminator(image, at) <==>
      Stands(image, at, [0, 0, 0, 0, 0, 0, 0, 0]) && Stands(image, at + 12, [0, 0, 0, 0])
  {
    hide NameAt, SizeAt, ByteAt, Stands;
    SizeBytes(image, at);
    var name, zero := [0x52, 0x45, 0x53, 0x45, 0x54, 0, 0, 0, 0, 0], [0, 0, 0, 0, 0, 0, 0, 0];
    assert PadName(RESET) == name && Zero(8) == zero;
    assert NameAt(image, at)[..NAME] == NameAt(image, at);
    NameStands(image, at, name);
    NameStands(image, at, zero);
  }

  /** What the tool's parser looks for. */
  lemma AcceptsMeans(image: seq<int>, at: nat)
    requires Bytes(image)
    ensures Accepts(image, at) <==>
      && at + 32 <= |image| && Stands(image, at, [0x52, 0x45, 0x53, 0x45, 0x54, 0])
      && Stands(image, at + 16, [0x52, 0x4F, 0x4D, 0x44, 0x49, 0x52, 0, 0, 0, 0])
      && image[at + 28] % 16 == 0 && SizeAt(image, at + 16) > 0
  {
    if at + 32 <= |image| {
      SizeBytes(image, at + 16);
      var reset, dir := [0x52, 0x45, 0x53, 0x45, 0x54, 0], [0x52, 0x4F, 0x4D, 0x44, 0x49, 0x52, 0, 0, 0, 0];
      assert RESET + [0] == reset && PadName(ROMDIR) == dir;
      hide SizeAt;
      StandsHere(image, at, reset);
      StandsHere(image, at + 16, dir);
      var name := image[at + 16..at + 26];
      RStripIs(name, ROMDIR);
      assert name == dir <==> name[..6] == ROMDIR && forall i :: 6 <= i < 10 ==> name[i] == 0 by {
        assert dir[..6] == ROMDIR;
        assert name == name[..6] + name[6..] && dir == dir[..6] + dir[6..];
      }
    }
  }

  lemma StandsHere(image: seq<int>, at: nat, s: seq<int>)
    requires at + |s| <= |image|
    ensures image[at..at + |s|] == s <==> Stands(image, at, s)
  {
    var t := image[at..at + |s|];
    assert forall i :: 0 <= i < |s| ==> t[i] == ByteAt(image, at + i);
    assert t == s <==> forall i :: 0 <= i < |s| ==> t[i] == s[i];
  }

  /** A place where reading the second row's size runs off the image. */
  predicate Truncated(image: seq<int>, at: nat) {
    && at + 6 <= |image| && image[at..at + 6] == RESET + [0] && at + 2 * ROW > |image|
    && at + ROW + |ROMDIR| <= |image| &&
      RStrip(image[at + ROW..if at + ROW + NAME <= |image| then at + ROW + NAME else |image|]) == ROMDIR
  }

  /** The first place accepted; none when there is none, or when a place before the first runs off the image. */
  ghost predicate FirstAccepted(image: seq<int>, table: Option<nat>) {
    match table
    case Some(t) => Accepts(image, t) && forall p :: 0 <= p < t ==> !Accepts(image, p) && !Truncated(image, p)
    case None =>
      || (forall p: nat :: !Accepts(image, p))
      || exists p: nat :: Truncated(image, p) && forall q :: 0 <= q < p ==> !Accepts(image, q)
  }

  /** romdir's findTable: none when it exits with an error. */
  method FindTable(image: seq<int>) returns (table: Option<nat>)
    ensures FirstAccepted(image, table)
  {
    var at := 0;
    while at + 6 <= |image|
      invariant forall p :: 0 <= p < at ==> !Accepts(image, p) && !Truncated(image, p)
      decreases |image| - at
    {
      if Truncated(image, at) { return None; }
      if Accepts(image, at) { return Some(at); }
      at := at + 1;
    }
    table := None;
  }

  /** The entries from a row on: none when a row runs off the image. */
  function Parse(image: seq<int>, at: nat, offset: nat, extOffset: int): Option<seq<Entry>>
    decreases if at < |image| then |image| - at else 0
  {
    if at + ROW > |image| then None
    else
      var name := RStrip(NameAt(image, at));
      if name == [] then Some([])
      else
        var e := Entry(name, Word16(image, at + 10), SizeAt(image, at), offset, extOffset);
        match Parse(image, at + ROW, offset + Align(e.size), extOffset + e.extSize)
        case None => None
        case Some(rest) => Some([e] + rest)
  }

  /** romdir's parseEntries. */
  method ParseEntries(image: seq<int>, table: nat) returns (entries: Option<seq<Entry>>)
    ensures entries == Parse(image, table, 0, 0)
  {
    hide NameAt, SizeAt, Word16, RStrip;
    var list: seq<Entry> := [];
    var offset: nat, extOffset, at := 0, 0, table;
    assert forall r: seq<Entry> :: list + r == r;
    while true
      invariant Parse(image, table, 0, 0) ==
        match Parse(image, at, offset, extOffset) { case None => None case Some(rest) => Some(list + rest) }
      decreases if at < |image| then |image| - at else 0
    {
      if at + ROW > |image| { return None; }
      var name := RStrip(NameAt(image, at));
      if name == [] {
        assert list + [] == list;
        return Some(list);
      }
      var e := Entry(name, Word16(image, at + 10), SizeAt(image, at), offset, extOffset);
      ghost var rest := Parse(image, at + ROW, offset + Align(e.size), extOffset + e.extSize);
      if rest.Some? { assert list + ([e] + rest.value) == list + [e] + rest.value; }
      list := list + [e];
      offset := offset + Align(e.size);
      extOffset := extOffset + e.extSize;
      at := at + ROW;
    }
  }

  /** The first entry of a name. */
  function Lookup(entries: seq<Entry>, name: seq<int>): Option<Entry> {
    if entries == [] then None
    else if entries[0].name == name then Some(entries[0])
    else Lookup(entries[1..], name)
  }

  lemma {:induction false} LookupSnoc(entries: seq<Entry>, e: Entry, name: seq<int>)
    ensures Lookup(entries + [e], name)
         == if Lookup(entries, name).Some? then Lookup(entries, name) else if e.name == name then Some(e) else None
  {
    if entries != [] {
      assert (entries + [e])[1..] == entries[1..] + [e];
      LookupSnoc(entries[1..], e, name);
    }
  }

  /** romdir's entryMap: the first of any duplicate name, and no padding. */
  method EntryMap(entries: seq<Entry>) returns (out: map<seq<int>, Entry>)
    ensures forall name :: name in out <==> name != DASH && Lookup(entries, name).Some?
    ensures forall name :: name in out ==> Lookup(entries, name) == Some(out[name])
  {
    out := map[];
    var i := 0;
    while i < |entries|
      invariant 0 <= i <= |entries|
      invariant forall name :: name in out <==> name != DASH && Lookup(entries[..i], name).Some?
      invariant forall name :: name in out ==> Lookup(entries[..i], name) == Some(out[name])
    {
      var e := entries[i];
      assert entries[..i + 1] == entries[..i] + [e];
      forall name
        ensures Lookup(entries[..i + 1], name)
             == if Lookup(entries[..i], name).Some? then Lookup(entries[..i], name)
                else if e.name == name then Some(e) else None
      {
        LookupSnoc(entries[..i], e, name);
      }
      if e.name != DASH && e.name !in out { out := out[e.name := e]; }
      i := i + 1;
    }
    assert entries[..i] == entries;
  }

  // ----- what the readers recover ---------------------------------------------------------------

  /** The manifest opens RESET, ROMDIR, with an aligned RESET and the generated table second. */
  ghost predicate Opens(m: seq<Item>) {
    && |m| >= 2 && m[0].name == RESET && m[1].name == ROMDIR && m[1].source == Table
    && SizeOf(m, m[0]) % ROW == 0
  }

  /** The table lies where the second entry goes. */
  ghost predicate HasTable(image: seq<int>, m: seq<Item>, t: nat) {
    && Manifest(m) && ShortNames(m) && t + ROW * (|m| + 1) <= |image|
    && image[t..t + ROW * (|m| + 1)] == TableOf(m)
  }

  lemma ImageHasTable(m: seq<Item>, size: Option<nat>)
    requires Manifest(m) && ShortNames(m) && Opens(m) && ImageOf(m, size).Some?
    ensures HasTable(ImageOf(m, size).value, m, SizeOf(m, m[0])) && Offset(m, 1) == SizeOf(m, m[0])
  {
    ImageHolds(m, size, 1);
    AlignExact(SizeOf(m, m[0]));
    hide ImageOf, TableOf, Align, SizeOf, Manifest, ShortNames;
    TableSize(m);
  }

  lemma TableSize(m: seq<Item>)
    requires ShortNames(m) && Opens(m)
    ensures SizeOf(m, m[1]) == ROW * (|m| + 1) && DataOf(m, m[1]) == TableOf(m)
    ensures Offset(m, 1) == Align(SizeOf(m, m[0]))
  {
    assert Offset(m, 0) == 0;
  }

  lemma AlignExact(n: nat)
    requires n % ROW == 0
    ensures Align(n) == n
  {
  }

  lemma {:induction false} RowsHold(m: seq<Item>, k: nat, n: nat)
    requires k < n <= |m| && ShortNames(m)
    ensures Rows(m, k) + RowOf(m, m[k]) <= Rows(m, n)
  {
    hide RowOf;
    if k < n - 1 {
      RowsHold(m, k, n - 1);
      PrefixMore(Rows(m, k) + RowOf(m, m[k]), Rows(m, n - 1), RowOf(m, m[n - 1]));
    }
  }

  lemma TableRow(image: seq<int>, m: seq<Item>, t: nat, k: nat)
    requires HasTable(image, m, t) && k < |m|
    ensures image[t + ROW * k..t + ROW * k + ROW] == RowOf(m, m[k]) && Packable(m, m[k])
  {
    assert Packable(m, m[k]);
    hide RowOf, Rows, Packable, Manifest, ShortNames, TableOf;
    TableSlice(m, k);
    SliceOfSlice(image, t, ROW * (|m| + 1), ROW * k, ROW);
  }

  lemma TableSlice(m: seq<Item>, k: nat)
    requires ShortNames(m) && k < |m|
    ensures TableOf(m)[ROW * k..ROW * k + ROW] == RowOf(m, m[k])
  {
    RowsHold(m, k, |m|);
    hide RowOf, Rows;
    PrefixMore(Rows(m, k) + RowOf(m, m[k]), Rows(m, |m|), Zero(ROW));
    PrefixSlice(Rows(m, k), RowOf(m, m[k]), TableOf(m));
  }

  lemma SliceOfSlice(s: seq<int>, a: nat, n: nat, b: nat, c: nat)
    requires a + n <= |s| && b + c <= n
    ensures s[a..a + n][b..b + c] == s[a + b..a + b + c]
  {
    var l, r := s[a..a + n][b..b + c], s[a + b..a + b + c];
    assert forall i :: 0 <= i < c ==> l[i] == r[i];
  }

  lemma TableEnds(image: seq<int>, m: seq<Item>, t: nat)
    requires HasTable(image, m, t)
    ensures NameAt(image, t + ROW * |m|) == Zero(NAME) && Terminator(image, t + ROW * |m|)
  {
    hide Rows, Manifest, ShortNames;
    var at := t + ROW * |m|;
    var table := image[t..t + ROW * (|m| + 1)];
    forall x | at <= x < at + ROW
      ensures ByteAt(image, x) == 0
    {
      assert image[x] == table[x - t] == Zero(ROW)[x - at];
    }
    forall i | 0 <= i < NAME
      ensures NameAt(image, at)[i] == Zero(NAME)[i]
    {
      assert NameAt(image, at)[i] == ByteAt(image, at + i);
    }
    assert NameAt(image, at) == Zero(NAME);
    assert NameAt(image, at)[..8] == Zero(8);
    assert ByteAt(image, at + 12) == 0 && ByteAt(image, at + 13) == 0;
    assert ByteAt(image, at + 14) == 0 && ByteAt(image, at + 15) == 0;
  }

  /** A packable row never reads as the terminator. */
  lemma NamedIsNotEnd(image: seq<int>, at: nat, name: seq<int>)
    requires 0 < |name| <= NAME && name[0] != 0 && NameAt(image, at) == PadName(name)
    ensures !Terminator(image, at)
  {
    assert NameAt(image, at)[..8][0] == name[0];
    assert Zero(8)[0] == 0;
  }

  /** Everything a reader sees in row `k`. */
  lemma RowFacts(image: seq<int>, m: seq<Item>, t: nat, k: nat)
    requires HasTable(image, m, t) && k < |m|
    ensures var at, name := t + ROW * k, m[k].name;
      && 0 < |name| <= NAME && name[0] != 0 && name[|name| - 1] != 0 && at + ROW <= |image|
      && NameAt(image, at) == PadName(name) && RStrip(NameAt(image, at)) == name
      && Word16(image, at + 10) == |m[k].ext| && SizeAt(image, at) == SizeOf(m, m[k]) && !Terminator(image, at)
  {
    TableRow(image, m, t, k);
    RowReads(image, t + ROW * k, m, m[k]);
    NamedIsNotEnd(image, t + ROW * k, m[k].name);
    hide NameAt, Terminator, SizeAt, Word16, RowOf;
    RStripPad(m[k].name, NAME - |m[k].name|);
  }

  lemma {:induction false} WalkFinds(image: seq<int>, m: seq<Item>, t: nat, k: nat, i: nat)
    requires HasTable(image, m, t) && k <= i < |m| && forall j :: 0 <= j < i ==> m[j].name != m[i].name
    requires |m[i].name| <= NAME
    ensures Walk(image, t + ROW * k, Offset(m, k), PadName(m[i].name)) == Some(Found(Offset(m, i), SizeOf(m, m[i])))
    decreases i - k
  {
    hide HasTable, RowOf, PadName, NameAt, Terminator, SizeAt, Word16, RStrip, SizeOf, Align;
    RowFacts(image, m, t, k);
    if k < i {
      RowFacts(image, m, t, i);
      PadDiffers(m[k].name, m[i].name);
      WalkFinds(image, m, t, k + 1, i);
      assert t + ROW * k + ROW == t + ROW * (k + 1);
    }
  }

  lemma MissesAtEnd(image: seq<int>, m: seq<Item>, t: nat, name: seq<int>)
    requires HasTable(image, m, t) && 0 < |name| <= NAME && name[0] != 0
    ensures Walk(image, t + ROW * |m|, Offset(m, |m|), PadName(name)) == None
  {
    TableEnds(image, m, t);
    hide HasTable, NameAt, Terminator, Offset;
    assert PadName(name)[0] != Zero(NAME)[0];
  }

  /** The walk goes on over a row of another name. */
  lemma RowPassed(image: seq<int>, m: seq<Item>, t: nat, k: nat, name: seq<int>)
    requires HasTable(image, m, t) && k < |m| && m[k].name != name
    requires 0 < |name| <= NAME && name[0] != 0 && name[|name| - 1] != 0
    ensures Walk(image, t + ROW * k, Offset(m, k), PadName(name))
         == Walk(image, t + ROW * (k + 1), Offset(m, k + 1), PadName(name))
  {
    hide HasTable, RowOf, PadName, NameAt, Terminator, SizeAt, Word16, RStrip, SizeOf, Align;
    RowFacts(image, m, t, k);
    PadDiffers(m[k].name, name);
    assert t + ROW * k + ROW == t + ROW * (k + 1);
  }

  /** A name the manifest does not have is not found: the walk stops at the terminator. */
  lemma {:induction false} WalkMisses(image: seq<int>, m: seq<Item>, t: nat, k: nat, name: seq<int>)
    requires HasTable(image, m, t) && k <= |m| && forall j :: 0 <= j < |m| ==> m[j].name != name
    requires 0 < |name| <= NAME && name[0] != 0 && name[|name| - 1] != 0
    ensures Walk(image, t + ROW * k, Offset(m, k), PadName(name)) == None
    decreases |m| - k
  {
    hide HasTable, Walk, PadName;
    if k == |m| {
      MissesAtEnd(image, m, t, name);
    } else {
      RowPassed(image, m, t, k, name);
      WalkMisses(image, m, t, k + 1, name);
    }
  }

  lemma {:induction false} ScanReaches(image: seq<int>, at: nat, t: nat, want: seq<int>)
    requires at <= t < |image| && (t - at) % ROW == 0 && Candidate(image, t)
    requires forall p :: at <= p < t && p % ROW == at % ROW ==> !Candidate(image, p)
    ensures Scan(image, at, want) == Walk(image, t, t - Align(SizeAt(image, t)), want)
    decreases t - at
  {
    hide Candidate, NameAt, SizeAt;
    if at < t {
      ScanReaches(image, at + ROW, t, want);
    }
  }

  /** The entries the parser should list, from entry `k` on. */
  function Listed(m: seq<Item>, k: nat): (s: seq<Entry>)
    requires k <= |m|
    ensures |s| == |m| - k
    decreases |m| - k
  {
    if k == |m| then []
    else [Entry(m[k].name, |m[k].ext|, SizeOf(m, m[k]), Offset(m, k), ExtOffset(m, k))] + Listed(m, k + 1)
  }

  lemma {:induction false} ParseLists(image: seq<int>, m: seq<Item>, t: nat, k: nat)
    requires HasTable(image, m, t) && k <= |m|
    ensures Parse(image, t + ROW * k, Offset(m, k), ExtOffset(m, k)) == Some(Listed(m, k))
    decreases |m| - k
  {
    hide HasTable, RowOf, PadName, NameAt, Terminator, SizeAt, Word16, RStrip, SizeOf, Align;
    if k == |m| {
      TableEnds(image, m, t);
      RStripPad([], NAME);
      assert [] + Zero(NAME) == Zero(NAME);
      TableFits(image, m, t);
    } else {
      RowFacts(image, m, t, k);
      ParseLists(image, m, t, k + 1);
      assert t + ROW * k + ROW == t + ROW * (k + 1);
    }
  }

  lemma TableFits(image: seq<int>, m: seq<Item>, t: nat)
    requires HasTable(image, m, t)
    ensures t + ROW * |m| + ROW <= |image| && ShortNames(m)
  {
  }

  lemma {:induction false} LookupListed(m: seq<Item>, k: nat, i: nat)
    requires k <= i < |m| && forall j :: 0 <= j < i ==> m[j].name != m[i].name
    ensures Lookup(Listed(m, k), m[i].name) ==
      Some(Entry(m[i].name, |m[i].ext|, SizeOf(m, m[i]), Offset(m, i), ExtOffset(m, i)))
    decreases i - k
  {
    if k < i { LookupListed(m, k + 1, i); }
  }

  lemma FirstRow(m: seq<Item>, image: seq<int>, t: nat)
    requires HasTable(image, m, t) && Opens(m)
    ensures Candidate(image, t) && SizeAt(image, t) == SizeOf(m, m[0]) && Accepts(image, t)
  {
    hide NameAt, SizeAt, Terminator, Word16, RStrip, RowOf, SizeOf, PadName, HasTable;
    RowFacts(image, m, t, 0);
    RowFacts(image, m, t, 1);
    assert t + ROW * 1 == t + ROW;
    NameSlice(image, t);
    NameSlice(image, t + ROW);
    ResetSix();
    assert image[t..t + NAME][..6] == image[t..t + 6];
    TableFits(image, m, t);
    TableSize(m);
  }

  lemma NameSlice(image: seq<int>, at: nat)
    requires at + NAME <= |image|
    ensures image[at..at + NAME] == NameAt(image, at)
  {
    forall i | 0 <= i < NAME
      ensures image[at..at + NAME][i] == NameAt(image, at)[i]
    {
      assert NameAt(image, at)[i] == ByteAt(image, at + i);
    }
  }

  lemma ResetSix()
    ensures PadName(RESET)[..6] == RESET + [0]
  {
  }

  /** Nothing before the table looks like one to the boot code's scan, which steps by rows. */
  ghost predicate NoFalseCandidate(image: seq<int>, t: nat) {
    forall p :: 0 <= p < t && p % ROW == 0 ==> !Candidate(image, p)
  }

  ghost predicate NoFalseTable(image: seq<int>, t: nat) {
    forall p :: 0 <= p < t ==> !Accepts(image, p) && !Truncated(image, p)
  }

  /**
   The boot code's find recovers the offset, size and bytes each name's first entry was built with, and no other name.
   */
  lemma FindRecovers(m: seq<Item>, size: Option<nat>, image: seq<int>, i: nat)
    requires Manifest(m) && ShortNames(m) && Opens(m) && ImageOf(m, size) == Some(image)
    requires NoFalseCandidate(image, SizeOf(m, m[0]))
    requires i < |m| && forall j :: 0 <= j < i ==> m[j].name != m[i].name
    ensures Scan(image, 0, PadName(m[i].name)) == Some(Found(Offset(m, i), SizeOf(m, m[i])))
    ensures Offset(m, i) + SizeOf(m, m[i]) <= |image|
    ensures image[Offset(m, i)..Offset(m, i) + SizeOf(m, m[i])] == DataOf(m, m[i])
  {
    var t := SizeOf(m, m[0]);
    ImageHasTable(m, size);
    ImageHolds(m, size, i);
    FirstRow(m, image, t);
    AlignExact(t);
    hide Candidate, Opens, HasTable, ImageOf, Manifest, SizeOf, DataOf, Walk, Offset, SizeAt, Align, ShortNames;
    WalkStart(image, m, t, i);
    NoneBefore(image, t);
    ScanReaches(image, 0, t, PadName(m[i].name));
  }

  lemma NoneBefore(image: seq<int>, t: nat)
    requires NoFalseCandidate(image, t)
    ensures forall p :: 0 <= p < t && p % ROW == 0 % ROW ==> !Candidate(image, p)
  {
  }

  lemma WalkStart(image: seq<int>, m: seq<Item>, t: nat, i: nat)
    requires HasTable(image, m, t) && ShortNames(m) && i < |m| && forall j :: 0 <= j < i ==> m[j].name != m[i].name
    ensures t < |image| && Walk(image, t, 0, PadName(m[i].name)) == Some(Found(Offset(m, i), SizeOf(m, m[i])))
  {
    WalkFinds(image, m, t, 0, i);
    assert Offset(m, 0) == 0 && t + ROW * 0 == t;
  }

  lemma FindMisses(m: seq<Item>, size: Option<nat>, image: seq<int>, name: seq<int>)
    requires Manifest(m) && ShortNames(m) && Opens(m) && ImageOf(m, size) == Some(image)
    requires NoFalseCandidate(image, SizeOf(m, m[0]))
    requires 0 < |name| <= NAME && name[0] != 0 && name[|name| - 1] != 0
    requires forall j :: 0 <= j < |m| ==> m[j].name != name
    ensures Scan(image, 0, PadName(name)) == None
  {
    var t := SizeOf(m, m[0]);
    ImageHasTable(m, size);
    FirstRow(m, image, t);
    AlignExact(t);
    assert t < |image|;
    WalkMisses(image, m, t, 0, name);
    assert Offset(m, 0) == 0 && t + ROW * 0 == t;
    hide Candidate, Opens, HasTable, ImageOf, Manifest, SizeOf, DataOf, Walk, Offset, SizeAt, Align, ShortNames,
      PadName;
    NoneBefore(image, t);
    ScanReaches(image, 0, t, PadName(name));
  }

  /** With no false table before it, the tool stops at the real one. */
  lemma TableFound(m: seq<Item>, size: Option<nat>, image: seq<int>, table: Option<nat>)
    requires Manifest(m) && ShortNames(m) && Opens(m) && ImageOf(m, size) == Some(image)
    requires NoFalseTable(image, SizeOf(m, m[0])) && FirstAccepted(image, table)
    ensures table == Some(SizeOf(m, m[0]))
  {
    hide Opens, HasTable, ImageOf, Manifest, SizeOf, ShortNames, Accepts, Truncated, FirstAccepted, NoFalseTable,
      Candidate, SizeAt;
    ImageHasTable(m, size);
    OpensTwo(m);
    FirstRow(m, image, SizeOf(m, m[0]));
    FirstOnly(image, SizeOf(m, m[0]), table);
  }

  lemma OpensTwo(m: seq<Item>)
    requires Opens(m)
    ensures |m| >= 2
  {
  }

  lemma FirstOnly(image: seq<int>, t: nat, table: Option<nat>)
    requires Accepts(image, t) && NoFalseTable(image, t) && FirstAccepted(image, table)
    ensures table == Some(t)
  {
    NotBoth(image, t);
    hide Accepts, Truncated;
  }

  lemma NotBoth(image: seq<int>, t: nat)
    requires Accepts(image, t)
    ensures !Truncated(image, t)
  {
  }

  /** The tool finds the same table, lists every entry with its offsets, and looks names up to the same effect. */
  lemma ParserRecovers(m: seq<Item>, size: Option<nat>, image: seq<int>)
    requires Manifest(m) && ShortNames(m) && Opens(m) && ImageOf(m, size) == Some(image)
    ensures Accepts(image, SizeOf(m, m[0]))
    ensures Parse(image, SizeOf(m, m[0]), 0, 0) == Some(Listed(m, 0))
    ensures forall i :: 0 <= i < |m| && (forall j :: 0 <= j < i ==> m[j].name != m[i].name) ==>
      Lookup(Listed(m, 0), m[i].name) ==
        Some(Entry(m[i].name, |m[i].ext|, SizeOf(m, m[i]), Offset(m, i), ExtOffset(m, i)))
  {
    var t := SizeOf(m, m[0]);
    ImageHasTable(m, size);
    FirstRow(m, image, t);
    ParseLists(image, m, t, 0);
    assert Offset(m, 0) == 0 && ExtOffset(m, 0) == 0 && t + ROW * 0 == t;
    forall i | 0 <= i < |m| && (forall j :: 0 <= j < i ==> m[j].name != m[i].name)
      ensures Lookup(Listed(m, 0), m[i].name) ==
        Some(Entry(m[i].name, |m[i].ext|, SizeOf(m, m[i]), Offset(m, i), ExtOffset(m, i)))
    {
      LookupListed(m, 0, i);
    }
  }

  // ----- the metadata entry ---------------------------------------------------------------------

  lemma {:induction false} ExtSplits(m: seq<Item>, k: nat)
    requires k <= |m|
    ensures ExtAll(m) == ExtAll(m[..k]) + ExtAll(m[k..]) && |ExtAll(m[..k])| == ExtOffset(m, k)
  {
    if k == 0 {
      assert m[..0] == [] && m[0..] == m;
    } else {
      ExtSplits(m, k - 1);
      assert m[..k] == m[..k - 1] + [m[k - 1]] && m[k - 1..] == [m[k - 1]] + m[k..];
      ExtAppend(m[..k - 1], m[k - 1]);
    }
  }

  lemma {:induction false} ExtAppend(s: seq<Item>, e: Item)
    ensures ExtAll(s + [e]) == ExtAll(s) + e.ext
  {
    if s == [] {
      assert [e][1..] == [];
    } else {
      assert (s + [e])[1..] == s[1..] + [e];
      ExtAppend(s[1..], e);
    }
  }

  /** The metadata entry holds each entry's slice at its offset. */
  lemma ExtSlice(m: seq<Item>, k: nat)
    requires k < |m|
    ensures ExtOffset(m, k) + |m[k].ext| <= |ExtAll(m)|
    ensures ExtAll(m)[ExtOffset(m, k)..ExtOffset(m, k) + |m[k].ext|] == m[k].ext
  {
    hide ExtAll, ExtOffset;
    ExtSplits(m, k);
    ExtSplits(m, k + 1);
    ExtAppend(m[..k], m[k]);
    assert m[..k + 1] == m[..k] + [m[k]];
    Between(ExtAll(m[..k]), m[k].ext, ExtAll(m[k + 1..]), ExtAll(m));
  }

  lemma Between(a: seq<int>, b: seq<int>, c: seq<int>, whole: seq<int>)
    requires whole == a + b + c
    ensures |a| + |b| <= |whole| && whole[|a|..|a| + |b|] == b
  {
  }

  /** In the image: where the parser's offsets point, inside the metadata entry, each entry's slice stands. */
  lemma ExtReads(m: seq<Item>, size: Option<nat>, image: seq<int>, x: nat, k: nat)
    requires x < |m| && ShortNames(m) && ImageOf(m, size) == Some(image) && m[x].source.ExtInfo? && k < |m|
    ensures var at := Offset(m, x) + ExtOffset(m, k);
      at + |m[k].ext| <= |image| && image[at..at + |m[k].ext|] == m[k].ext
  {
    hide ExtAll, ImageOf, Offset, ExtOffset;
    ImageHolds(m, size, x);
    ExtSlice(m, k);
    SliceOfSlice(image, Offset(m, x), |ExtAll(m)|, ExtOffset(m, k), |m[k].ext|);
  }

  // ----- laying out before everything is built --------------------------------------------------

  /** The manifest as loadForOffset leaves it: no file's bytes from the target on. */
  function Partial(m: seq<Item>, target: nat): (p: seq<Item>)
    requires target <= |m|
    ensures |p| == |m|
  {
    seq(|m|, i requires 0 <= i < |m| => if i >= target && m[i].source.File? then m[i].(source := File([])) else m[i])
  }

  lemma {:induction false} SameExt(a: seq<Item>, b: seq<Item>)
    requires |a| == |b| && forall i :: 0 <= i < |a| ==> a[i].ext == b[i].ext
    ensures ExtAll(a) == ExtAll(b)
  {
    if a != [] { SameExt(a[1..], b[1..]); }
  }

  /** The target's offset is already right. */
  lemma {:induction false} PartialOffset(m: seq<Item>, target: nat, k: nat)
    requires k <= target <= |m|
    ensures Offset(Partial(m, target), k) == Offset(m, k)
  {
    if k > 0 {
      PartialOffset(m, target, k - 1);
      SameExt(Partial(m, target), m);
    }
  }

  /** A name's place among the first `k` entries: the last of that name. */
  function OffsetBy(m: seq<Item>, k: nat, name: seq<int>): Option<nat>
    requires k <= |m|
  {
    if k == 0 then None
    else if m[k - 1].name == name then Some(Offset(m, k - 1))
    else OffsetBy(m, k - 1, name)
  }

  lemma {:induction false} OffsetByIs(m: seq<Item>, k: nat, i: nat)
    requires i < k <= |m| && forall j :: i < j < k ==> m[j].name != m[i].name
    ensures OffsetBy(m, k, m[i].name) == Some(Offset(m, i))
  {
    if i < k - 1 { OffsetByIs(m, k - 1, i); }
  }

  lemma {:induction false} OffsetByHas(m: seq<Item>, k: nat, i: nat)
    requires i < k <= |m|
    ensures OffsetBy(m, k, m[i].name).Some?
  {
    if i < k - 1 { OffsetByHas(m, k - 1, i); }
  }

  /** entryOffsets: the running sum, kept by name. */
  method EntryOffsets(m: seq<Item>) returns (offsets: map<seq<int>, nat>)
    ensures forall name :: name in offsets <==> OffsetBy(m, |m|, name).Some?
    ensures forall name :: name in offsets ==> OffsetBy(m, |m|, name) == Some(offsets[name])
  {
    hide Align, SizeOf;
    offsets := map[];
    var offset, i := 0, 0;
    while i < |m|
      invariant 0 <= i <= |m| && offset == Offset(m, i)
      invariant forall name :: name in offsets <==> OffsetBy(m, i, name).Some?
      invariant forall name :: name in offsets ==> OffsetBy(m, i, name) == Some(offsets[name])
    {
      offsets := offsets[m[i].name := offset];
      offset := offset + Align(SizeOf(m, m[i]));
      i := i + 1;
    }
  }

  /** Item `i` alone has the name. */
  ghost predicate OnlyAt(m: seq<Item>, name: seq<int>, i: int)
    requires 0 <= i < |m|
  {
    m[i].name == name && forall j :: 0 <= j < |m| && j != i ==> m[j].name != name
  }

  /** --offset-of: the partial layout places the target, whose name appears once, where the finished image has it. */
  method OffsetOf(m: seq<Item>, name: seq<int>) returns (offset: Option<nat>)
    ensures offset == None <==> forall i :: 0 <= i < |m| ==> m[i].name != name
    ensures forall i :: 0 <= i < |m| && OnlyAt(m, name, i) ==> offset == Some(Offset(m, i))
  {
    var target := 0;
    while target < |m| && m[target].name != name
      invariant 0 <= target <= |m| && forall i :: 0 <= i < target ==> m[i].name != name
    {
      target := target + 1;
    }
    if target == |m| { return None; }
    var partial := Partial(m, target);
    var offsets := EntryOffsets(partial);
    PartialOffset(m, target, target);
    assert forall i :: 0 <= i < |m| ==> partial[i].name == m[i].name;
    OffsetByHas(partial, |m|, target);
    if forall j :: target < j < |m| ==> m[j].name != name { OffsetByIs(partial, |m|, target); }
    offset := Some(offsets[name]);
  }
}
