/**
 INTRMAN's DMA dispatcher (src/iop/intrman.cpp): two registers of flags cleared by writing ones, raised by
 the hardware at any moment, served one handler call per flag.
 */
module DmaDispatch {

  /** A 32-bit word, as the set of its one bits. */
  type Word = set<nat>

  const MASTER: nat := 23
  const FORCE: nat := 15
  const FORCE_IRQ: nat := 0x27
  const BANK1: nat := 0x20
  const BANK2: nat := 0x28
  const LINES: nat := 0x2E
  const DMA_LINE: nat := 3
  const ERROR_ILLEGAL_IRQ := -0x65
  const ERROR_NOT_ENABLED := -0x67
  /** The flag bits an EnableIntr argument carries above its line. */
  const FLAG_DICR: nat := 8
  const FLAG_DICR2: nat := 9

  /** Bits 24 to 30: a one written clears the flag, a zero leaves it. */
  predicate IsFlag(bit: nat) { 24 <= bit < 31 }

  function Flags(w: Word): Word { set x | x in w && IsFlag(x) }

  /** Bits 0 to 23, all a configuring write carries. */
  function Writable(w: Word): Word { set x | x in w && x < 24 }

  function WithoutFlags(w: Word): Word { set x | x in w && !IsFlag(x) }

  /** What a register holds after a write: the word written, and the flags it did not clear. */
  function Written(before: Word, w: Word): Word {
    WithoutFlags(w) + (Flags(before) - w)
  }

  function Channels(bank: nat): nat { if bank == 0 then 7 else 6 }

  function FirstIrq(bank: nat): nat { if bank == 0 then BANK1 else BANK2 }

  /** The lines that are DMA channels: seven on the first bank, six on the second. */
  predicate IsChannel(irq: nat) { BANK1 <= irq < BANK1 + 7 || BANK2 <= irq < LINES }

  function Bank(irq: nat): nat { if irq < BANK2 then 0 else 1 }

  function Bit(irq: nat): nat
    requires BANK1 <= irq < LINES
  {
    24 + if irq < BANK2 then irq - BANK1 else irq - BANK2
  }

  /** The flags a bank's gate lets through. */
  function LetThrough(w: Word, gate: Word, bank: nat): Word {
    set x | x in w && x in gate && 24 <= x < 24 + Channels(bank)
  }

  // ----- the enables, as functions of the two registers' configuration --------------------------

  datatype Config = Config(dicr: Word, dicr2: Word)

  /** What enabling `line` makes of the configuration; `flags` selects the channel's low bits. */
  function Enabled(c: Config, line: nat, flags: Word): Config
    requires IsChannel(line)
  {
    var channel := Bit(line) - 24;
    if line < BANK2 then
      Config(Writable(c.dicr) - {channel} + {16 + channel, MASTER} + if FLAG_DICR in flags then {channel} else {},
             Writable(c.dicr2) - {channel} + if FLAG_DICR2 in flags then {channel} else {})
    else
      Config(Writable(c.dicr) + {MASTER},
             Writable(c.dicr2) - {channel + 7} + {16 + channel} + if FLAG_DICR2 in flags then {channel + 7} else {})
  }

  predicate IsEnabled(c: Config, line: nat)
    requires IsChannel(line)
  {
    Bit(line) - 8 in if line < BANK2 then c.dicr else c.dicr2
  }

  function Disabled(c: Config, line: nat): Config
    requires IsChannel(line)
  {
    if line < BANK2 then Config(Writable(c.dicr) - {Bit(line) - 8}, c.dicr2)
    else Config(c.dicr, Writable(c.dicr2) - {Bit(line) - 8})
  }

  /** The argument that would enable the line again as it was. */
  function Restore(c: Config, line: nat): Word
    requires IsChannel(line)
  {
    var channel := Bit(line) - 24;
    if line < BANK2 then
      (if channel in c.dicr then {FLAG_DICR} else {}) + if channel in c.dicr2 then {FLAG_DICR2} else {}
    else if channel + 7 in c.dicr2 then {FLAG_DICR2} else {}
  }

  /** Enabling with what disabling answered brings back every configuration bit, and the master with it. */
  lemma ReenableRestores(c: Config, line: nat)
    requires IsChannel(line) && IsEnabled(c, line)
    ensures Enabled(Disabled(c, line), line, Restore(c, line)) == Config(Writable(c.dicr) + {MASTER}, Writable(c.dicr2))
  {
    var channel := Bit(line) - 24;
    var e := Enabled(Disabled(c, line), line, Restore(c, line));
    assert forall x :: x in e.dicr <==> x in Writable(c.dicr) + {MASTER};
    assert forall x :: x in e.dicr2 <==> x in Writable(c.dicr2);
  }

  function Power2(n: nat): (p: nat)
    ensures p > 0
  {
    if n == 0 then 1 else 2 * Power2(n - 1)
  }

  /** The bits of an argument's value above its line. */
  ghost predicate Carries(flags: Word, value: nat) {
    forall b: nat :: b in flags <==> b < 32 && value / Power2(b) % 2 == 1
  }

  /** What enabling with an argument does to each bit, the argument's two flags read off its value. */
  lemma EnabledBits(c: Config, line: nat, flags: Word, value: nat)
    requires IsChannel(line) && Carries(flags, value)
    ensures var e := Enabled(c, line, flags);
      if line < 0x28 then
        var channel := line - 0x20;
        && (forall b: nat :: b in e.dicr <==>
              if b == channel then value / 0x100 % 2 == 1 else b == 16 + channel || b == 23 || (b in c.dicr && b < 24))
        && (forall b: nat :: b in e.dicr2 <==> if b == channel then value / 0x200 % 2 == 1 else b in c.dicr2 && b < 24)
      else
        var channel := line - 0x28;
        && (forall b: nat :: b in e.dicr2 <==>
              if b == channel + 7 then value / 0x200 % 2 == 1 else b == 16 + channel || (b in c.dicr2 && b < 24))
        && (forall b: nat :: b in e.dicr <==> b == 23 || (b in c.dicr && b < 24))
  {
    assert Power2(8) == 0x100 && Power2(9) == 0x200 by { PowersAre(); }
    assert 8 in flags <==> value / Power2(8) % 2 == 1;
    assert 9 in flags <==> value / Power2(9) % 2 == 1;
  }

  /** Which lines are DMA channels, and where each one's flag lies. */
  lemma LinesAre(irq: nat)
    ensures IsChannel(irq) <==> 0x20 <= irq < 0x2E && irq != 0x27
    ensures IsChannel(irq) ==>
      Bit(irq) == (if irq < 0x28 then irq - 8 else irq - 0x10) && Bank(irq) == if irq < 0x28 then 0 else 1
  {
  }

  /** The argument that disabling answers: the low bits found, where enabling takes them from. */
  lemma RestoreBits(c: Config, line: nat)
    requires IsChannel(line)
    ensures var f := Restore(c, line);
      && (8 in f <==> line < 0x28 && line - 0x20 in c.dicr)
      && (9 in f <==> if line < 0x28 then line - 0x20 in c.dicr2 else line - 0x21 in c.dicr2)
      && forall b: nat :: b in f ==> b == 8 || b == 9
  {
  }

  lemma PowersAre()
    ensures Power2(8) == 0x100 && Power2(9) == 0x200
  {
    assert Power2(4) == 16;
    assert Power2(8) == 256;
  }

  /** Disabling clears the channel's enable bit alone, where it was set. */
  lemma DisabledBits(c: Config, line: nat)
    requires IsChannel(line)
    ensures var d := Disabled(c, line); var bit := if line < 0x28 then line - 0x10 else line - 0x18;
      && IsEnabled(c, line) == (if line < 0x28 then bit in c.dicr else bit in c.dicr2)
      && (forall b: nat :: b < 24 ==> (b in d.dicr <==> b in c.dicr && !(line < 0x28 && b == bit)))
      && (forall b: nat :: b < 24 ==> (b in d.dicr2 <==> b in c.dicr2 && !(line >= 0x28 && b == bit)))
  {
  }

  // ----- what has happened ----------------------------------------------------------------------

  datatype Event = Raised(irq: nat) | Acked(irq: nat) | Called(irq: nat)

  /** Every flag cleared so far has had its handler called next; only a last one may still be owed its call. */
  ghost predicate Answered(log: seq<Event>) {
    forall i, j :: 0 <= i < j < |log| && j == i + 1 && log[i].Acked? ==> log[j] == Called(log[i].irq)
  }

  ghost function Count(log: seq<Event>, e: Event): nat { multiset(log)[e] }

  lemma CountAppend(log: seq<Event>, e: Event)
    ensures forall f :: Count(log + [e], f) == Count(log, f) + if f == e then 1 else 0
  {
  }

  /** Every rising flag is cleared once or still set, and each clearing has had one call. */
  ghost predicate Balanced(log: seq<Event>, reg: seq<Word>, owed: int)
    requires |reg| == 2
  {
    && (forall irq :: IsChannel(irq) ==>
          Count(log, Raised(irq)) == Count(log, Acked(irq)) + if Bit(irq) in reg[Bank(irq)] then 1 else 0)
    && (forall irq :: IsChannel(irq) ==>
          Count(log, Acked(irq)) == Count(log, Called(irq)) + if irq == owed then 1 else 0)
    && Answered(log)
    && (log != [] && log[|log| - 1].Acked? ==> log[|log| - 1].irq == owed)
    && (owed >= 0 ==> log != [] && log[|log| - 1] == Acked(owed))
  }

  ghost predicate OnlyChannels(reg: seq<Word>) {
    |reg| == 2 && forall b, x {:trigger x in reg[b]} :: 0 <= b < 2 && x in reg[b] && IsFlag(x) ==> x < 24 + Channels(b)
  }

  lemma RaiseBalanced(log: seq<Event>, reg: seq<Word>, irq: nat)
    requires |reg| == 2 && Balanced(log, reg, -1) && IsChannel(irq) && Bit(irq) !in reg[Bank(irq)] && OnlyChannels(reg)
    ensures var r := reg[Bank(irq) := reg[Bank(irq)] + {Bit(irq)}];
      Balanced(log + [Raised(irq)], r, -1) && OnlyChannels(r)
  {
    CountAppend(log, Raised(irq));
    hide Count;
  }

  /** A write with no ones in the flags. */
  lemma ConfigureBalanced(log: seq<Event>, reg: seq<Word>, bank: nat, w: Word)
    requires |reg| == 2 && bank < 2 && Balanced(log, reg, -1) && Flags(w) == {} && OnlyChannels(reg)
    ensures var r := reg[bank := Written(reg[bank], w)];
      Balanced(log, r, -1) && OnlyChannels(r) && Flags(r[bank]) == Flags(reg[bank])
  {
    hide Count;
    assert forall x :: IsFlag(x) ==> (x in Flags(w) <==> x in w);
  }

  /** A write with a one in the flag of a channel that is set. */
  lemma AckBalanced(log: seq<Event>, reg: seq<Word>, irq: nat, w: Word)
    requires |reg| == 2 && IsChannel(irq) && Balanced(log, reg, -1) && Flags(w) == {Bit(irq)} && OnlyChannels(reg)
    requires Bit(irq) in reg[Bank(irq)]
    ensures var r := reg[Bank(irq) := Written(reg[Bank(irq)], w)];
      && Balanced(log + [Acked(irq)], r, irq) && OnlyChannels(r)
      && Flags(r[Bank(irq)]) == Flags(reg[Bank(irq)]) - {Bit(irq)}
  {
    CountAppend(log, Acked(irq));
    hide Count;
    assert forall x :: IsFlag(x) ==> (x in Flags(w) <==> x in w);
  }

  lemma CallBalanced(log: seq<Event>, reg: seq<Word>, irq: nat, owed: int)
    requires |reg| == 2 && Balanced(log, reg, owed)
    requires owed == irq || (owed == -1 && !IsChannel(irq))
    ensures Balanced(log + [Called(irq)], reg, -1)
  {
    CountAppend(log, Called(irq));
    hide Count;
  }

  /** From one moment to a later one only flags in `but` were cleared, and a flag set since has risen in between. */
  ghost predicate FlagsKept(r0: seq<Word>, l0: seq<Event>, r1: seq<Word>, l1: seq<Event>, but: set<nat>)
    requires |r0| == |r1| == 2
  {
    && l0 <= l1 && (forall i :: |l0| <= i < |l1| && l1[i].Acked? ==> l1[i].irq in but)
    && (forall irq :: IsChannel(irq) && irq !in but && Bit(irq) in r0[Bank(irq)] ==> Bit(irq) in r1[Bank(irq)])
    && (forall irq :: IsChannel(irq) && Bit(irq) in r1[Bank(irq)] && Bit(irq) !in r0[Bank(irq)] ==>
          exists i :: |l0| <= i < |l1| && l1[i] == Raised(irq))
  }

  lemma KeptThen(r0: seq<Word>, l0: seq<Event>, r1: seq<Word>, l1: seq<Event>, r2: seq<Word>, l2: seq<Event>,
                 but: set<nat>)
    requires |r0| == |r1| == |r2| == 2 && FlagsKept(r0, l0, r1, l1, but) && FlagsKept(r1, l1, r2, l2, but)
    ensures FlagsKept(r0, l0, r2, l2, but)
  {
    forall i | |l0| <= i < |l2| && l2[i].Acked?
      ensures l2[i].irq in but
    {
      if i < |l1| { assert l2[i] == l1[i]; }
    }
    forall irq | IsChannel(irq) && Bit(irq) in r2[Bank(irq)] && Bit(irq) !in r0[Bank(irq)]
      ensures exists i :: |l0| <= i < |l2| && l2[i] == Raised(irq)
    {
      if Bit(irq) in r1[Bank(irq)] {
        var i :| |l0| <= i < |l1| && l1[i] == Raised(irq);
        assert l2[i] == Raised(irq);
      }
    }
  }

  lemma KeptMore(r0: seq<Word>, l0: seq<Event>, r1: seq<Word>, l1: seq<Event>, but: set<nat>, more: set<nat>)
    requires |r0| == |r1| == 2 && FlagsKept(r0, l0, r1, l1, but) && but <= more
    ensures FlagsKept(r0, l0, r1, l1, more)
  {
  }

  /** Nothing but the hardware raising flags. */
  ghost predicate Quiet(r0: seq<Word>, l0: seq<Event>, r1: seq<Word>, l1: seq<Event>)
    requires |r0| == |r1| == 2
  {
    FlagsKept(r0, l0, r1, l1, {}) && forall i :: |l0| <= i < |l1| ==> l1[i].Raised?
  }

  lemma QuietThen(r0: seq<Word>, l0: seq<Event>, r1: seq<Word>, l1: seq<Event>, r2: seq<Word>, l2: seq<Event>)
    requires |r0| == |r1| == |r2| == 2 && Quiet(r0, l0, r1, l1) && Quiet(r1, l1, r2, l2)
    ensures Quiet(r0, l0, r2, l2)
  {
    KeptThen(r0, l0, r1, l1, r2, l2, {});
    forall i | |l0| <= i < |l2|
      ensures l2[i].Raised?
    {
      if i < |l1| { assert l2[i] == l1[i]; }
    }
  }

  lemma QuietKept(r0: seq<Word>, l0: seq<Event>, r1: seq<Word>, l1: seq<Event>, but: set<nat>)
    requires |r0| == |r1| == 2 && Quiet(r0, l0, r1, l1)
    ensures FlagsKept(r0, l0, r1, l1, but)
  {
    KeptMore(r0, l0, r1, l1, {}, but);
  }

  lemma QuietNow(r: seq<Word>, l: seq<Event>)
    requires |r| == 2
    ensures Quiet(r, l, r, l)
  {
  }

  lemma SteadyNow(r: seq<Word>)
    requires |r| == 2
    ensures Steady(r, r)
  {
  }

  /** Only the flags differ. */
  ghost predicate Steady(r0: seq<Word>, r1: seq<Word>)
    requires |r0| == |r1| == 2
  {
    forall b :: 0 <= b < 2 ==> WithoutFlags(r0[b]) == WithoutFlags(r1[b]) && Writable(r0[b]) == Writable(r1[b])
  }

  lemma RaiseKept(log: seq<Event>, reg: seq<Word>, irq: nat)
    requires |reg| == 2 && IsChannel(irq) && Bit(irq) !in reg[Bank(irq)]
    ensures var r := reg[Bank(irq) := reg[Bank(irq)] + {Bit(irq)}];
      && Quiet(reg, log, r, log + [Raised(irq)]) && Steady(reg, r)
      && Pending(0, r) == Pending(0, reg) + 1
  {
    RaiseQuiet(log, reg, irq);
    hide Quiet, FlagsKept;
    var r := reg[Bank(irq) := reg[Bank(irq)] + {Bit(irq)}];
    assert Flags(r[Bank(irq)]) == Flags(reg[Bank(irq)]) + {Bit(irq)};
  }

  lemma RaiseQuiet(log: seq<Event>, reg: seq<Word>, irq: nat)
    requires |reg| == 2 && IsChannel(irq) && Bit(irq) !in reg[Bank(irq)]
    ensures Quiet(reg, log, reg[Bank(irq) := reg[Bank(irq)] + {Bit(irq)}], log + [Raised(irq)])
  {
    var l := log + [Raised(irq)];
    assert l[|log|] == Raised(irq);
  }

  lemma SteadyThen(r0: seq<Word>, r1: seq<Word>, r2: seq<Word>)
    requires |r0| == |r1| == |r2| == 2 && Steady(r0, r1) && Steady(r1, r2)
    ensures Steady(r0, r2)
  {
  }

  lemma SameForced(r0: seq<Word>, r1: seq<Word>)
    requires |r0| == |r1| == 2 && (FORCE in Writable(r0[0]) <==> FORCE in Writable(r1[0]))
    ensures Forced(r0) == Forced(r1)
  {
    assert forall w: Word :: FORCE in w <==> FORCE in Writable(w);
  }

  lemma SteadyForced(r0: seq<Word>, r1: seq<Word>)
    requires |r0| == |r1| == 2 && Steady(r0, r1)
    ensures Forced(r0) == Forced(r1)
  {
    assert forall w: Word :: FORCE in w <==> FORCE in Writable(w);
  }

  /** The work in sight: flags the hardware has yet to raise, and flags set. */
  ghost function Pending(budget: nat, reg: seq<Word>): nat
    requires |reg| == 2
  {
    budget + |Flags(reg[0])| + |Flags(reg[1])|
  }

  ghost function Forced(reg: seq<Word>): nat
    requires |reg| == 2
  {
    if FORCE in reg[0] then 1 else 0
  }

  function Ones(n: nat): Word {
    if n == 0 then {} else Ones(n - 1) + {n - 1}
  }

  /**
   Every time a flag rose it has had exactly one handler call, made right after it was cleared, or it is still set.
   */
  lemma EachRaiseAnsweredOnce(log: seq<Event>, reg: seq<Word>, irq: nat)
    requires |reg| == 2 && Balanced(log, reg, -1) && IsChannel(irq)
    ensures Count(log, Raised(irq)) == Count(log, Called(irq)) + if Bit(irq) in reg[Bank(irq)] then 1 else 0
    ensures forall i :: 0 <= i < |log| && log[i] == Acked(irq) ==> i + 1 < |log| && log[i + 1] == Called(irq)
  {
    hide Count;
    forall i | 0 <= i < |log| && log[i] == Acked(irq)
      ensures i + 1 < |log| && log[i + 1] == Called(irq)
    {
      var j := i + 1;
    }
  }

  class DmaController {
    /** DICR and DICR2. */
    var reg: seq<Word>
    /** bank_dispatch_mask. */
    var gate: seq<Word>
    var intMask: Word
    var dispatchMask: Word
    /** The lines with a handler. */
    var registered: set<nat>
    /** How many more flags the hardware will raise, and everything that has happened. */
    var budget: nat
    ghost var log: seq<Event>

    ghost predicate Shape()
      reads this
    {
      |reg| == 2 && |gate| == 2 && OnlyChannels(reg)
    }

    ghost predicate Valid()
      reads this
    {
      Shape() && Balanced(log, reg, -1)
    }

    /** No flag set, every gate open. */
    constructor (dicr: Word, dicr2: Word, registered: set<nat>, budget: nat)
      requires Flags(dicr) == {} && Flags(dicr2) == {}
      ensures Valid() && log == [] && reg == [dicr, dicr2] && this.budget == budget
    {
      reg := [dicr, dicr2];
      gate := [Ones(32), Ones(32)];
      intMask, dispatchMask := {}, {};
      this.registered, this.budget := registered, budget;
      log := [];
      new;
      assert forall b, x {:trigger x in reg[b]} :: 0 <= b < 2 && IsFlag(x) ==> (x in Flags(reg[b]) <==> x in reg[b]);
    }

    /** Any clear channel flags rise, as many as the hardware has left to raise. */
    method HardwareMayRaise()
      requires Valid()
      modifies this`reg, this`budget, this`log
      ensures Valid() && Pending(budget, reg) == old(Pending(budget, reg)) && Steady(old(reg), reg)
      ensures Quiet(old(reg), old(log), reg, log)
    {
      hide Balanced, FlagsKept, Quiet, Steady, OnlyChannels, Flags;
      var raises: nat := *;
      SteadyNow(reg);
      QuietNow(reg, log);
      while raises > 0 && budget > 0
        invariant Valid() && Pending(budget, reg) == old(Pending(budget, reg)) && Steady(old(reg), reg)
        invariant Quiet(old(reg), old(log), reg, log)
      {
        var irq: nat := *;
        if IsChannel(irq) && Bit(irq) !in reg[Bank(irq)] {
          RaiseBalanced(log, reg, irq);
          RaiseKept(log, reg, irq);
          ghost var r := reg[Bank(irq) := reg[Bank(irq)] + {Bit(irq)}];
          QuietThen(old(reg), old(log), reg, log, r, log + [Raised(irq)]);
          SteadyThen(old(reg), reg, r);
          reg := reg[Bank(irq) := reg[Bank(irq)] + {Bit(irq)}];
          log := log + [Raised(irq)];
          budget := budget - 1;
        }
        raises := raises - 1;
      }
    }

    method ReadReg(bank: nat) returns (w: Word)
      requires Valid() && bank < 2
      modifies this`reg, this`budget, this`log
      ensures Valid() && Pending(budget, reg) == old(Pending(budget, reg)) && Steady(old(reg), reg)
      ensures Quiet(old(reg), old(log), reg, log)
      ensures w == reg[bank] && Forced(reg) == old(Forced(reg))
    {
      HardwareMayRaise();
      SteadyForced(old(reg), reg);
      w := reg[bank];
    }

    /** A write with zeroes in the flags: whatever was raised since the word was read stays raised. */
    method Configure(bank: nat, w: Word)
      requires Valid() && bank < 2 && Flags(w) == {}
      modifies this`reg, this`budget, this`log
      ensures Valid() && Pending(budget, reg) == old(Pending(budget, reg))
      ensures WithoutFlags(reg[bank]) == WithoutFlags(w) && Writable(reg[bank]) == Writable(w)
      ensures var o := 1 - bank;
        WithoutFlags(reg[o]) == old(WithoutFlags(reg[o])) && Writable(reg[o]) == old(Writable(reg[o]))
      ensures Quiet(old(reg), old(log), reg, log)
    {
      HardwareMayRaise();
      ConfigureBalanced(log, reg, bank, w);
      ghost var r := reg[bank := Written(reg[bank], w)];
      ConfigureKept(log, reg, bank, w);
      QuietThen(old(reg), old(log), reg, log, r, log);
      reg := reg[bank := Written(reg[bank], w)];
    }

    /** Read, drop some bits of the configuration, put others, write back with zeroes in the flags. */
    method Modify(bank: nat, drop: Word, put: Word)
      requires Valid() && bank < 2 && forall x :: x in put ==> x < 24
      modifies this`reg, this`budget, this`log
      ensures Valid() && Pending(budget, reg) == old(Pending(budget, reg))
      ensures WithoutFlags(reg[bank]) == Writable(reg[bank]) == old(Writable(reg[bank])) - drop + put
      ensures var o := 1 - bank;
        WithoutFlags(reg[o]) == old(WithoutFlags(reg[o])) && Writable(reg[o]) == old(Writable(reg[o]))
      ensures Quiet(old(reg), old(log), reg, log)
    {
      hide Balanced, FlagsKept, Quiet, OnlyChannels;
      var now := ReadReg(bank);
      ghost var r, l := reg, log;
      var w := Writable(now) - drop + put;
      assert Flags(w) == {} && WithoutFlags(w) == w && Writable(w) == w;
      Configure(bank, w);
      QuietThen(old(reg), old(log), r, l, reg, log);
    }

    ghost function Setting(): Config
      requires |reg| == 2
      reads this
    {
      Config(Writable(reg[0]), Writable(reg[1]))
    }

    method EnableIntr(line: nat, flags: Word) returns (r: int)
      requires Valid() && line < 0x100
      modifies this`reg, this`budget, this`log, this`intMask
      ensures Valid() && Pending(budget, reg) == old(Pending(budget, reg)) && Forced(reg) == old(Forced(reg))
      ensures Quiet(old(reg), old(log), reg, log)
      ensures r == if line < 0x20 || IsChannel(line) then 0 else -0x65
      ensures Setting() == if IsChannel(line) then Enabled(old(Setting()), line, flags) else old(Setting())
      ensures intMask == old(intMask) + if line < 0x20 then {line} else if IsChannel(line) then {3} else {}
    {
      hide Balanced, FlagsKept, Quiet, OnlyChannels, Enabled, Flags, WithoutFlags, Pending, Forced;
      QuietNow(reg, log);
      r := 0;
      if line < BANK1 {
        intMask := intMask + {line};
      } else if line < BANK2 - 1 {
        var channel := line - BANK1;
        Modify(0, {channel}, {16 + channel, MASTER} + if FLAG_DICR in flags then {channel} else {});
        ghost var r1, l1 := reg, log;
        Modify(1, {channel}, if FLAG_DICR2 in flags then {channel} else {});
        QuietThen(old(reg), old(log), r1, l1, reg, log);
        SettingEnabled(old(reg), reg, line, flags);
        intMask := intMask + {DMA_LINE};
      } else if BANK2 <= line < LINES {
        var channel := line - BANK2;
        var low := channel + 7;
        Modify(1, {low}, {16 + channel} + if FLAG_DICR2 in flags then {low} else {});
        ghost var r1, l1 := reg, log;
        Modify(0, {}, {MASTER});
        QuietThen(old(reg), old(log), r1, l1, reg, log);
        SettingEnabled(old(reg), reg, line, flags);
        intMask := intMask + {DMA_LINE};
      } else {
        r := ERROR_ILLEGAL_IRQ;
      }
    }

    /** The second result is the argument that would enable the line again, or nothing when the line was not enabled. */
    method DisableIntr(line: nat) returns (r: int, previous: Argument)
      requires Valid() && line < 0x100
      modifies this`reg, this`budget, this`log, this`intMask
      ensures Valid() && Pending(budget, reg) == old(Pending(budget, reg)) && Forced(reg) == old(Forced(reg))
      ensures Quiet(old(reg), old(log), reg, log)
      ensures line < 0x20 ==> r == if line in old(intMask) then 0 else -0x67
      ensures intMask == if line < 0x20 then old(intMask) - {line} else old(intMask)
      ensures IsChannel(line) ==> r == if IsEnabled(old(Setting()), line) then 0 else -0x67
      ensures line >= 0x20 && !IsChannel(line) ==> r == -0x65
      ensures Setting() == if r == 0 && IsChannel(line) then Disabled(old(Setting()), line) else old(Setting())
      ensures previous == if r != 0 then Nothing else if line < 0x20 then Line(line, {})
                          else Line(line, Restore(old(Setting()), line))
    {
      hide Balanced, FlagsKept, Quiet, OnlyChannels;
      QuietNow(reg, log);
      r, previous := 0, Nothing;
      if line < BANK1 {
        if line in intMask { previous := Line(line, {}); } else { r := ERROR_NOT_ENABLED; }
        intMask := intMask - {line};
      } else if line < BANK2 - 1 {
        var channel := line - BANK1;
        var now := ReadReg(0);
        ghost var r1, l1 := reg, log;
        var value := Writable(now);
        if 16 + channel !in value { return ERROR_NOT_ENABLED, Nothing; }
        var second := ReadReg(1);
        QuietThen(old(reg), old(log), r1, l1, reg, log);
        ghost var r2, l2 := reg, log;
        var first := if channel in value then {FLAG_DICR} else {};
        previous := Line(line, first + if channel in second then {FLAG_DICR2} else {});
        assert channel in second <==> channel in Writable(second);
        Plain(value, 16 + channel);
        Configure(0, value - {16 + channel});
        SameForced(old(reg), reg);
        QuietThen(old(reg), old(log), r2, l2, reg, log);
      } else if BANK2 <= line < LINES {
        var channel := line - BANK2;
        var now := ReadReg(1);
        ghost var r1, l1 := reg, log;
        var value := Writable(now);
        if 16 + channel !in value { return ERROR_NOT_ENABLED, Nothing; }
        previous := Line(line, if channel + 7 in value then {FLAG_DICR2} else {});
        Plain(value, 16 + channel);
        Configure(1, value - {16 + channel});
        SameForced(old(reg), reg);
        QuietThen(old(reg), old(log), r1, l1, reg, log);
      } else {
        r := ERROR_ILLEGAL_IRQ;
      }
    }

    method DisableDispatchIntr(irq: nat)
      requires |gate| == 2
      modifies this`gate, this`dispatchMask
      ensures dispatchMask == if irq < 0x20 then old(dispatchMask) + {irq} else old(dispatchMask)
      ensures gate == if 0x20 <= irq < 0x2E then old(gate)[Bank(irq) := old(gate)[Bank(irq)] - {Bit(irq)}]
                      else old(gate)
    {
      if irq < BANK1 {
        dispatchMask := dispatchMask + {irq};
      } else if irq < BANK2 {
        gate := gate[0 := gate[0] - {24 + (irq - BANK1)}];
      } else if irq < LINES {
        gate := gate[1 := gate[1] - {24 + (irq - BANK2)}];
      }
    }

    method EnableDispatchIntr(irq: nat)
      requires |gate| == 2
      modifies this`gate, this`dispatchMask
      ensures dispatchMask == if irq < 0x20 then old(dispatchMask) - {irq} else old(dispatchMask)
      ensures gate == if 0x20 <= irq < 0x2E then old(gate)[Bank(irq) := old(gate)[Bank(irq)] + {Bit(irq)}]
                      else old(gate)
    {
      if irq < BANK1 {
        dispatchMask := dispatchMask - {irq};
      } else if irq < BANK2 {
        gate := gate[0 := gate[0] + {24 + (irq - BANK1)}];
      } else if irq < LINES {
        gate := gate[1 := gate[1] + {24 + (irq - BANK2)}];
      }
    }

    /**
     A slot's handler, if it has one: it may call any of the four above, any number of times, but opens no gate in
     `shut`.
     */
    method CallRegistered(irq: nat, shut: set<nat>, ghost owed: int)
      requires Shape() && Balanced(log, reg, owed) && Closed(gate, shut)
      requires owed == irq || (owed == -1 && !IsChannel(irq))
      modifies this
      ensures Valid() && Closed(gate, shut)
      ensures Pending(budget, reg) == old(Pending(budget, reg)) && Forced(reg) == old(Forced(reg))
      ensures FlagsKept(old(reg), old(log) + [Called(irq)], reg, log, {})
    {
      hide Balanced, FlagsKept, Quiet, OnlyChannels, Closed;
      CallBalanced(log, reg, irq, owed);
      log := log + [Called(irq)];
      ghost var l0 := log;
      QuietNow(reg, log);
      QuietKept(reg, log, reg, log, {});
      if irq in registered {
        var steps: nat := *;
        while steps > 0
          invariant Valid() && Closed(gate, shut) && l0 == old(log) + [Called(irq)]
          invariant Pending(budget, reg) == old(Pending(budget, reg)) && Forced(reg) == old(Forced(reg))
          invariant FlagsKept(old(reg), l0, reg, log, {})
        {
          ghost var r1, l1, g1 := reg, log, gate;
          QuietNow(reg, log);
          var what: nat := *;
          var line: nat := *;
          var flags: Word := *;
          if what == 0 {
            var r := EnableIntr(line % 0x100, flags);
          } else if what == 1 {
            var r, previous := DisableIntr(line % 0x100);
          } else if what == 2 {
            DisableDispatchIntr(line);
            ClosedLess(g1, gate, shut);
          } else if what == 3 && line !in shut {
            EnableDispatchIntr(line);
            ClosedElsewhere(g1, gate, shut, line);
          } else {
            HardwareMayRaise();
            SteadyForced(r1, reg);
          }
          QuietKept(r1, l1, reg, log, {});
          KeptThen(old(reg), l0, r1, l1, reg, log, {});
          steps := steps - 1;
        }
      }
    }

    /** Clear one channel's flag, with the configuration written back as read and no other flag written. */
    method Acknowledge(irq: nat)
      requires Valid() && IsChannel(irq) && Bit(irq) in reg[Bank(irq)]
      modifies this`reg, this`budget, this`log
      ensures Shape() && Balanced(log, reg, irq) && Steady(old(reg), reg) && Forced(reg) == old(Forced(reg))
      ensures Pending(budget, reg) == old(Pending(budget, reg)) - 1
      ensures Bit(irq) !in reg[Bank(irq)] && log != [] && |log| > |old(log)| && log[|log| - 1] == Acked(irq)
      ensures FlagsKept(old(reg), old(log), reg, log + [Called(irq)], {irq})
    {
      hide Balanced, FlagsKept, Quiet, OnlyChannels, Steady, Flags, WithoutFlags, Written, Pending, Forced;
      var now := ReadReg(Bank(irq));
      ghost var r1, l1 := reg, log;
      QuietHolds(old(reg), old(log), r1, l1, irq);
      // The write itself: the hardware may raise flags between the read and it.
      HardwareMayRaise();
      ghost var r2, l2 := reg, log;
      QuietHolds(r1, l1, r2, l2, irq);
      QuietThen(old(reg), old(log), r1, l1, r2, l2);
      QuietSince(old(reg), old(log), r2, l2);
      SteadyForced(r1, r2);
      SteadyThen(old(reg), r1, r2);
      var w := WithoutFlags(now) + {Bit(irq)};
      AckWord(r1, r2, irq);
      AckBalanced(log, reg, irq, w);
      AckKept(log, reg, irq, w, budget);
      reg := reg[Bank(irq) := Written(reg[Bank(irq)], w)];
      log := log + [Acked(irq)];
      SteadyThen(old(reg), r2, reg);
      QuietKept(old(reg), old(log), r2, l2, {irq});
      KeptThen(old(reg), old(log), r2, l2, reg, l2 + [Acked(irq)] + [Called(irq)], {irq});
    }

    /** Clear one channel's flag, whatever else is in the register now, and call its slot. */
    method Serve(irq: nat, shut: set<nat>)
      requires Valid() && IsChannel(irq) && Bit(irq) in reg[Bank(irq)] && Closed(gate, shut)
      modifies this
      ensures Valid() && Closed(gate, shut) && Forced(reg) == old(Forced(reg))
      ensures Pending(budget, reg) == old(Pending(budget, reg)) - 1
      ensures FlagsKept(old(reg), old(log), reg, log, {irq}) && AckedSince(log, |old(log)|, irq)
    {
      hide Balanced, FlagsKept, Quiet, OnlyChannels, Closed, Steady, Flags, WithoutFlags, Written, Pending, Forced;
      Acknowledge(irq);
      ghost var r1, l1 := reg, log;
      CallRegistered(irq, shut, irq);
      KeptMore(r1, l1 + [Called(irq)], reg, log, {}, {irq});
      KeptThen(old(reg), old(log), r1, l1 + [Called(irq)], reg, log, {irq});
      AckedThere(l1, irq, r1, reg, log, |old(log)|);
    }

    /** serveBank: the flags let through as read once, served in channel order. */
    method ServeBank(bank: nat, shut: set<nat>)
      requires Valid() && bank < 2 && Closed(gate, shut)
      modifies this
      ensures Valid() && Closed(gate, shut) && Forced(reg) == old(Forced(reg))
      ensures Pending(budget, reg) <= old(Pending(budget, reg))
      ensures FlagsKept(old(reg), old(log), reg, log, Except(shut))
      ensures Pending(budget, reg) == old(Pending(budget, reg)) ==>
        gate == old(gate) && FlagsKept(old(reg), old(log), reg, log, {}) &&
          LetThrough(old(reg[bank]), gate[bank], bank) == {}
      // Every flag its gate let through when the bank was taken up has been cleared, and so its slot called.
      ensures forall x :: x in LetThrough(old(reg[bank]), old(gate[bank]), bank) ==>
        AckedSince(log, |old(log)|, FirstIrq(bank) + (x - 24))
      // Lower channels first.
      ensures var flags := LetThrough(old(reg[bank]), old(gate[bank]), bank);
        forall x, y :: x in flags && y in flags && x < y ==>
        AckedBefore(log, |old(log)|, FirstIrq(bank) + (x - 24), FirstIrq(bank) + (y - 24))
    {
      hide Balanced, FlagsKept, Quiet, OnlyChannels, Closed, Flags, WithoutFlags, AckedSince, AckedBefore;
      var through := gate[bank];
      var word := ReadReg(bank);
      var flags := LetThrough(word, through, bank);
      ghost var r1, l1 := reg, log;
      QuietKept(old(reg), old(log), r1, l1, {});
      ReadMore(old(reg), old(log), r1, l1, bank, through);
      KeptMore(old(reg), old(log), r1, l1, {}, Except(shut));
      var channel := 0;
      while channel < Channels(bank)
        invariant 0 <= channel <= Channels(bank)
        invariant Valid() && Closed(gate, shut) && Forced(reg) == old(Forced(reg))
        invariant Pending(budget, reg) <= old(Pending(budget, reg))
        invariant FlagsKept(old(reg), old(log), reg, log, Except(shut))
        invariant forall x :: x in flags && x >= 24 + channel ==> x in reg[bank]
        invariant forall x :: x in flags && x < 24 + channel ==> AckedSince(log, |old(log)|, FirstIrq(bank) + (x - 24))
        invariant forall x, y :: x in flags && y in flags && x < y < 24 + channel ==>
          AckedBefore(log, |old(log)|, FirstIrq(bank) + (x - 24), FirstIrq(bank) + (y - 24))
        invariant Pending(budget, reg) == old(Pending(budget, reg)) ==>
          gate == old(gate) && reg == r1 && log == l1 && forall x :: x in flags ==> x >= 24 + channel
      {
        if 24 + channel in flags {
          var irq := FirstIrq(bank) + channel;
          assert Bit(irq) == 24 + channel && Bank(irq) == bank;
          if irq in shut { ClosedThrough(old(gate), shut, irq); }
          ghost var r2, l2 := reg, log;
          Serve(irq, shut);
          KeptMore(r2, l2, reg, log, {irq}, Except(shut));
          KeptThen(old(reg), old(log), r2, l2, reg, log, Except(shut));
          StillSet(r2, l2, reg, log, bank, channel);
          StillAcked(r2, l2, reg, log, irq, |old(log)|);
          LogGrows(old(reg), old(log), r2, l2, Except(shut));
          StillBefore(r2, l2, reg, log, irq, |old(log)|);
          AckedEarlier(old(reg), old(log), r2, l2, Except(shut), log, irq);
        }
        channel := channel + 1;
      }
    }

    /** One round with something to serve: the force slot if it was asked for, then both banks. */
    method DispatchRound(force: bool, shut: set<nat>)
      requires Valid() && Closed(gate, shut) && (force ==> Forced(reg) == 1)
      requires force || LetThrough(reg[0], gate[0], 0) != {} || LetThrough(reg[1], gate[1], 1) != {}
      modifies this
      ensures Valid() && Closed(gate, shut) && FlagsKept(old(reg), old(log), reg, log, Except(shut))
      ensures Pending(budget, reg) + Forced(reg) < old(Pending(budget, reg) + Forced(reg))
      ensures force ==> ForceServed(log, |old(log)|)
    {
      hide Balanced, FlagsKept, Quiet, OnlyChannels, Closed, Flags, WithoutFlags, LetThrough, Pending;
      QuietNow(reg, log);
      QuietKept(reg, log, reg, log, Except(shut));
      if force {
        Modify(0, {FORCE}, {});
        Dropped(reg);
        ghost var r3, l3 := reg, log;
        QuietKept(old(reg), old(log), r3, l3, Except(shut));
        CalledKept(r3, l3, FORCE_IRQ, Except(shut));
        KeptThen(old(reg), old(log), r3, l3, r3, l3 + [Called(FORCE_IRQ)], Except(shut));
        CallRegistered(FORCE_IRQ, shut, -1);
        KeptMore(r3, l3 + [Called(FORCE_IRQ)], reg, log, {}, Except(shut));
        KeptThen(old(reg), old(log), r3, l3 + [Called(FORCE_IRQ)], reg, log, Except(shut));
        ForceCalled(r3, l3, reg, log, old(reg), old(log), Except(shut));
      }
      ghost var r4, l4, g4, p4 := reg, log, gate, Pending(budget, reg);
      ServeBank(0, shut);
      KeptThen(old(reg), old(log), r4, l4, reg, log, Except(shut));
      ForceStays(r4, l4, reg, log, Except(shut), |old(log)|);
      ghost var r5, l5, p5 := reg, log, Pending(budget, reg);
      if p4 == p5 { ReadMore(r4, l4, r5, l5, 1, g4[1]); }
      ServeBank(1, shut);
      KeptThen(old(reg), old(log), r5, l5, reg, log, Except(shut));
      ForceStays(r5, l5, reg, log, Except(shut), |old(log)|);
    }

    /**
     dmaDispatch: round again until neither bank shows a flag its gate lets through and the force bit is clear.
     The hardware may raise flags at any register access, but only finitely many in all.
     */
    method DmaDispatchHandler(shut: set<nat>) returns (r: int, ghost mark: nat)
      requires Valid() && Closed(gate, shut)
      modifies this
      ensures Valid() && r == 1 && 23 in reg[0] && 15 !in reg[0]
      // A forced pass calls its own slot.
      ensures old(15 in reg[0]) ==> ForceServed(log, |old(log)|)
      // No channel gated off throughout is served, and its flag stays.
      ensures FlagsKept(old(reg), old(log), reg, log, Except(shut)) && Closed(gate, shut)
      // A flag still set that its gate lets through has risen since the last look, and nothing was cleared since.
      ensures mark <= |log| && forall i :: mark <= i < |log| ==> log[i].Raised?
      ensures forall irq :: IsChannel(irq) && Bit(irq) in reg[Bank(irq)] && Bit(irq) in gate[Bank(irq)] ==>
        exists i :: mark <= i < |log| && log[i] == Raised(irq)
    {
      hide Balanced, FlagsKept, Quiet, OnlyChannels, Closed, Flags, WithoutFlags, LetThrough;
      QuietNow(reg, log);
      QuietKept(reg, log, reg, log, Except(shut));
      ghost var r0, l0 := reg, log;
      ghost var r1, l1 := reg, log;
      ghost var r2, l2 := reg, log;
      while true
        invariant Valid() && Closed(gate, shut) && FlagsKept(old(reg), old(log), reg, log, Except(shut))
        invariant old(Forced(reg)) == 1 ==> Forced(reg) == 1 || ForceServed(log, |old(log)|)
        decreases Pending(budget, reg) + Forced(reg)
      {
        r0, l0 := reg, log;
        var word1 := ReadReg(0);
        r1, l1 := reg, log;
        var bank1 := LetThrough(word1, gate[0], 0);
        var force := FORCE in word1;
        var word2 := ReadReg(1);
        r2, l2 := reg, log;
        var bank2 := LetThrough(word2, gate[1], 1);
        QuietThen(r0, l0, r1, l1, r2, l2);
        QuietKept(r0, l0, r2, l2, Except(shut));
        KeptThen(old(reg), old(log), r0, l0, r2, l2, Except(shut));
        if bank1 == {} && bank2 == {} && !force { break; }
        QuietKept(r1, l1, r2, l2, {});
        ReadMore(r1, l1, r2, l2, 0, gate[0]);
        DispatchRound(force, shut);
        ServedSince(r2, l2, reg, log, old(reg), old(log), Except(shut));
        KeptThen(old(reg), old(log), r2, l2, reg, log, Except(shut));
      }
      mark := |l1|;
      // The pulse of the master enable, and the wait for the clear to read back.
      Modify(0, {MASTER}, {});
      ghost var r3, l3, open := reg, log, gate;
      var back := ReadReg(0);
      QuietThen(r2, l2, r3, l3, reg, log);
      ghost var looks := 1;
      while MASTER in back
        invariant Valid() && gate == open && Quiet(r2, l2, reg, log) && Steady(r3, reg)
        invariant MASTER in back ==> looks == 1
        decreases looks
      {
        looks := 0;
        ghost var r4, l4 := reg, log;
        back := ReadReg(0);
        QuietThen(r2, l2, r4, l4, reg, log);
        SteadyThen(r3, r4, reg);
        InWritable(reg, MASTER);
        InWritable(r3, MASTER);
      }
      ghost var r4, l4 := reg, log;
      Modify(0, {}, {MASTER});
      QuietThen(r2, l2, r4, l4, reg, log);
      QuietKept(r2, l2, reg, log, Except(shut));
      KeptThen(old(reg), old(log), r2, l2, reg, log, Except(shut));
      QuietThen(r1, l1, r2, l2, reg, log);
      QuietSince(r1, l1, reg, log);
      QuietSince(r1, l1, r2, l2);
      RisenSince(r1, l1, reg, log, gate, 0);
      RisenSince(r2, l2, reg, log, gate, 1);
      InWritable(reg, MASTER);
      InWritable(reg, FORCE);
      InWritable(r2, FORCE);
      InWritable(r1, FORCE);
      r := 1;
    }
  }

  /** The lines that may be served. */
  ghost function Except(shut: set<nat>): set<nat> {
    set irq | irq in Lines() && irq !in shut
  }

  ghost function Lines(): set<nat> { set irq: nat | irq < LINES && IsChannel(irq) }

  /** Every line in `shut` is a channel gated off. */
  ghost predicate Closed(gate: seq<Word>, shut: set<nat>) {
    |gate| == 2 && forall irq :: irq in shut ==> IsChannel(irq) && Bit(irq) !in gate[Bank(irq)]
  }

  lemma ClosedLess(g0: seq<Word>, g1: seq<Word>, shut: set<nat>)
    requires Closed(g0, shut) && |g1| == 2 && forall b :: 0 <= b < 2 ==> g1[b] <= g0[b]
    ensures Closed(g1, shut)
  {
    assert g1[0] <= g0[0] && g1[1] <= g0[1];
  }

  lemma ClosedElsewhere(g0: seq<Word>, g1: seq<Word>, shut: set<nat>, line: nat)
    requires Closed(g0, shut) && |g1| == 2 && line !in shut
    requires IsChannel(line) ==> g1 == g0[Bank(line) := g0[Bank(line)] + {Bit(line)}]
    requires line == FORCE_IRQ ==> g1 == g0[0 := g0[0] + {31}]
    requires line < BANK1 || line >= LINES ==> g1 == g0
    ensures Closed(g1, shut)
  {
  }

  datatype Argument = Nothing | Line(line: nat, flags: Word)

  /** The slot of the force condition has been called. */
  ghost predicate ForceServed(log: seq<Event>, start: nat) {
    exists i :: start <= i < |log| && log[i] == Called(0x27)
  }

  lemma ForceStays(r0: seq<Word>, l0: seq<Event>, r1: seq<Word>, l1: seq<Event>, but: set<nat>, start: nat)
    requires |r0| == |r1| == 2 && FlagsKept(r0, l0, r1, l1, but)
    ensures ForceServed(l0, start) ==> ForceServed(l1, start)
  {
    if i :| start <= i < |l0| && l0[i] == Called(0x27) { assert l1[i] == Called(0x27); }
  }

  lemma ForceCalled(r3: seq<Word>, l3: seq<Event>, r: seq<Word>, l: seq<Event>, r0: seq<Word>, l0: seq<Event>,
                    but: set<nat>)
    requires |r3| == |r| == |r0| == 2 && FlagsKept(r0, l0, r3, l3, but)
    requires FlagsKept(r3, l3 + [Called(FORCE_IRQ)], r, l, but)
    ensures ForceServed(l, |l0|)
  {
    assert l[|l3|] == (l3 + [Called(FORCE_IRQ)])[|l3|];
  }

  /** What was served before a round is served after it, and what the round served counts from the start. */
  lemma ServedSince(r2: seq<Word>, l2: seq<Event>, r: seq<Word>, l: seq<Event>, r0: seq<Word>, l0: seq<Event>,
                    but: set<nat>)
    requires |r2| == |r| == |r0| == 2 && FlagsKept(r0, l0, r2, l2, but) && FlagsKept(r2, l2, r, l, but)
    ensures ForceServed(l2, |l0|) || ForceServed(l, |l2|) ==> ForceServed(l, |l0|)
  {
    ForceStays(r2, l2, r, l, but, |l0|);
  }

  lemma Plain(value: Word, bit: nat)
    requires forall x :: x in value ==> x < 24
    ensures Flags(value - {bit}) == {} && Writable(value - {bit}) == WithoutFlags(value - {bit}) == value - {bit}
  {
  }

  lemma SettingEnabled(r0: seq<Word>, r1: seq<Word>, line: nat, flags: Word)
    requires |r0| == |r1| == 2 && IsChannel(line)
    requires var channel := Bit(line) - 24;
      if line < BANK2 then
        && Writable(r1[0]) ==
          Writable(r0[0]) - {channel} + ({16 + channel, MASTER} + if FLAG_DICR in flags then {channel} else {})
        && Writable(r1[1]) == Writable(r0[1]) - {channel} + if FLAG_DICR2 in flags then {channel} else {}
      else
        && Writable(r1[0]) == Writable(r0[0]) - {} + {MASTER}
        && Writable(r1[1]) ==
          Writable(r0[1]) - {channel + 7} + ({16 + channel} + if FLAG_DICR2 in flags then {channel + 7} else {})
    ensures Config(Writable(r1[0]), Writable(r1[1])) == Enabled(Config(Writable(r0[0]), Writable(r0[1])), line, flags)
    ensures Forced(r1) == Forced(r0)
  {
    assert forall w: Word :: FORCE in w <==> FORCE in Writable(w);
    var e := Enabled(Config(Writable(r0[0]), Writable(r0[1])), line, flags);
    assert Writable(Writable(r0[0])) == Writable(r0[0]) && Writable(Writable(r0[1])) == Writable(r0[1]);
    assert forall x :: x in e.dicr <==> x in Writable(r1[0]);
    assert forall x :: x in e.dicr2 <==> x in Writable(r1[1]);
  }

  lemma ConfigureKept(log: seq<Event>, reg: seq<Word>, bank: nat, w: Word)
    requires |reg| == 2 && bank < 2 && Flags(w) == {}
    ensures var r := reg[bank := Written(reg[bank], w)];
      && Quiet(reg, log, r, log) && Flags(r[bank]) == Flags(reg[bank])
      && WithoutFlags(r[bank]) == WithoutFlags(w) && Writable(r[bank]) == Writable(w)
  {
    assert forall x :: IsFlag(x) ==> (x in Flags(w) <==> x in w);
  }

  ghost predicate AckedSince(log: seq<Event>, start: nat, irq: nat) {
    exists i :: start <= i < |log| && log[i] == Acked(irq)
  }

  lemma AckedThere(l1: seq<Event>, irq: nat, r1: seq<Word>, r: seq<Word>, l: seq<Event>, start: nat)
    requires |r1| == |r| == 2 && |l1| > start && l1[|l1| - 1] == Acked(irq)
    requires FlagsKept(r1, l1 + [Called(irq)], r, l, {irq})
    ensures AckedSince(l, start, irq)
  {
    assert l[|l1| - 1] == (l1 + [Called(irq)])[|l1| - 1] == Acked(irq);
  }

  lemma StillAcked(r0: seq<Word>, l0: seq<Event>, r1: seq<Word>, l1: seq<Event>, irq: nat, start: nat)
    requires |r0| == |r1| == 2 && FlagsKept(r0, l0, r1, l1, {irq})
    ensures forall j :: AckedSince(l0, start, j) ==> AckedSince(l1, start, j)
  {
    forall j | AckedSince(l0, start, j)
      ensures AckedSince(l1, start, j)
    {
      var i :| start <= i < |l0| && l0[i] == Acked(j);
      assert l1[i] == Acked(j);
    }
  }

  /** One flag was cleared, and after that another. */
  ghost predicate AckedBefore(log: seq<Event>, start: nat, a: nat, b: nat) {
    exists i, j :: start <= i < j < |log| && log[i] == Acked(a) && log[j] == Acked(b)
  }

  lemma LogGrows(r0: seq<Word>, l0: seq<Event>, r1: seq<Word>, l1: seq<Event>, but: set<nat>)
    requires |r0| == |r1| == 2 && FlagsKept(r0, l0, r1, l1, but)
    ensures |l0| <= |l1|
  {
  }

  /** What was cleared before stays so, and before the flag cleared now. */
  lemma StillBefore(r0: seq<Word>, l0: seq<Event>, r1: seq<Word>, l1: seq<Event>, irq: nat, start: nat)
    requires |r0| == |r1| == 2 && FlagsKept(r0, l0, r1, l1, {irq}) && AckedSince(l1, |l0|, irq) && start <= |l0|
    ensures forall a, b :: AckedBefore(l0, start, a, b) ==> AckedBefore(l1, start, a, b)
    ensures forall a :: AckedSince(l0, start, a) ==> AckedBefore(l1, start, a, irq)
  {
    forall a, b | AckedBefore(l0, start, a, b)
      ensures AckedBefore(l1, start, a, b)
    {
      var i, j :| start <= i < j < |l0| && l0[i] == Acked(a) && l0[j] == Acked(b);
      assert l1[i] == Acked(a) && l1[j] == Acked(b);
    }
    var j :| |l0| <= j < |l1| && l1[j] == Acked(irq);
    forall a | AckedSince(l0, start, a)
      ensures AckedBefore(l1, start, a, irq)
    {
      var i :| start <= i < |l0| && l0[i] == Acked(a);
      assert l1[i] == Acked(a);
    }
  }

  lemma AckedEarlier(r0: seq<Word>, l0: seq<Event>, r1: seq<Word>, l1: seq<Event>, but: set<nat>, l: seq<Event>,
                     irq: nat)
    requires |r0| == |r1| == 2 && FlagsKept(r0, l0, r1, l1, but) && AckedSince(l, |l1|, irq)
    ensures AckedSince(l, |l0|, irq)
  {
  }

  lemma QuietHolds(r0: seq<Word>, l0: seq<Event>, r1: seq<Word>, l1: seq<Event>, irq: nat)
    requires |r0| == |r1| == 2 && Quiet(r0, l0, r1, l1) && IsChannel(irq) && Bit(irq) in r0[Bank(irq)]
    ensures Bit(irq) in r1[Bank(irq)]
  {
  }

  lemma AckWord(r0: seq<Word>, r1: seq<Word>, irq: nat)
    requires |r0| == |r1| == 2 && Steady(r0, r1) && IsChannel(irq)
    ensures var w := WithoutFlags(r0[Bank(irq)]) + {Bit(irq)};
      Flags(w) == {Bit(irq)} && WithoutFlags(w) == WithoutFlags(r1[Bank(irq)])
  {
  }

  /** The acknowledging write takes away one flag, and the rest of the word it writes is as read. */
  lemma AckKept(log: seq<Event>, reg: seq<Word>, irq: nat, w: Word, budget: nat)
    requires |reg| == 2 && IsChannel(irq) && Flags(w) == {Bit(irq)} && Bit(irq) in reg[Bank(irq)]
    requires WithoutFlags(w) == WithoutFlags(reg[Bank(irq)])
    ensures var r := reg[Bank(irq) := Written(reg[Bank(irq)], w)];
      && FlagsKept(reg, log, r, log + [Acked(irq)] + [Called(irq)], {irq})
      && Pending(budget, r) == Pending(budget, reg) - 1 && Forced(r) == Forced(reg)
      && Steady(reg, r) && Bit(irq) !in r[Bank(irq)]
  {
    assert forall x :: IsFlag(x) ==> (x in Flags(w) <==> x in w);
    assert forall x :: !IsFlag(x) ==> (x in w <==> x in WithoutFlags(w));
    var r := reg[Bank(irq) := Written(reg[Bank(irq)], w)];
    assert Flags(r[Bank(irq)]) == Flags(reg[Bank(irq)]) - {Bit(irq)};
    assert !IsFlag(FORCE);
    assert forall v: Word :: FORCE in v <==> FORCE in WithoutFlags(v);
  }

  lemma ReadMore(r0: seq<Word>, l0: seq<Event>, r1: seq<Word>, l1: seq<Event>, bank: nat, gate: Word)
    requires |r0| == |r1| == 2 && FlagsKept(r0, l0, r1, l1, {}) && bank < 2
    ensures LetThrough(r0[bank], gate, bank) <= LetThrough(r1[bank], gate, bank)
  {
    forall x | x in LetThrough(r0[bank], gate, bank)
      ensures x in LetThrough(r1[bank], gate, bank)
    {
      var irq := FirstIrq(bank) + (x - 24);
      assert Bit(irq) == x && Bank(irq) == bank;
    }
  }

  lemma ClosedThrough(gate: seq<Word>, shut: set<nat>, irq: nat)
    requires Closed(gate, shut) && irq in shut
    ensures IsChannel(irq) && Bit(irq) !in gate[Bank(irq)]
  {
  }

  lemma StillSet(r0: seq<Word>, l0: seq<Event>, r1: seq<Word>, l1: seq<Event>, bank: nat, channel: nat)
    requires |r0| == |r1| == 2 && bank < 2 && channel < Channels(bank)
    requires FlagsKept(r0, l0, r1, l1, {FirstIrq(bank) + channel})
    ensures forall x :: 24 + channel < x < 24 + Channels(bank) && x in r0[bank] ==> x in r1[bank]
  {
    forall x | 24 + channel < x < 24 + Channels(bank) && x in r0[bank]
      ensures x in r1[bank]
    {
      var irq := FirstIrq(bank) + (x - 24);
      assert Bit(irq) == x && Bank(irq) == bank;
    }
  }

  lemma Dropped(r: seq<Word>)
    requires |r| == 2 && FORCE !in Writable(r[0])
    ensures Forced(r) == 0
  {
  }

  lemma CalledKept(r: seq<Word>, l: seq<Event>, irq: nat, but: set<nat>)
    requires |r| == 2
    ensures FlagsKept(r, l, r, l + [Called(irq)], but)
  {
  }

  lemma QuietSince(r0: seq<Word>, l0: seq<Event>, r1: seq<Word>, l1: seq<Event>)
    requires |r0| == |r1| == 2 && Quiet(r0, l0, r1, l1)
    ensures |l0| <= |l1| && forall i :: |l0| <= i < |l1| ==> l1[i].Raised?
  {
  }

  /** If the last look at a bank showed no flag let through, what its gate lets through now has risen since. */
  lemma RisenSince(r0: seq<Word>, l0: seq<Event>, r1: seq<Word>, l1: seq<Event>, gate: seq<Word>, bank: nat)
    requires |r0| == |r1| == |gate| == 2 && bank < 2 && Quiet(r0, l0, r1, l1)
    requires LetThrough(r0[bank], gate[bank], bank) == {}
    ensures forall irq :: IsChannel(irq) && Bank(irq) == bank && Bit(irq) in r1[bank] && Bit(irq) in gate[bank] ==>
      exists i :: |l0| <= i < |l1| && l1[i] == Raised(irq)
  {
    forall irq | IsChannel(irq) && Bank(irq) == bank && Bit(irq) in r1[bank] && Bit(irq) in gate[bank]
      ensures exists i :: |l0| <= i < |l1| && l1[i] == Raised(irq)
    {
      assert Bit(irq) !in LetThrough(r0[bank], gate[bank], bank);
    }
  }

  lemma InWritable(r: seq<Word>, bit: nat)
    requires |r| == 2 && bit < 24
    ensures bit in r[0] <==> bit in Writable(r[0])
  {
  }
}
