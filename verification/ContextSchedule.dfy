// Multi-context operation: the context cell stores II - 1, the context
// counters count up to it, and every configuration cell shows the context that
// the counter names.
module ContextSchedule {
  import opened Mrrg
  import opened ConfigChain
  import opened BitStreams
  import opened ScanLoad

  function Pow2(n: nat): (r: nat)
    ensures r > 0
  {
    if n == 0 then 1 else 2 * Pow2(n - 1)
  }

  /** ceil(log2(c)), the width of a context number. */
  function CeilLog2(c: nat): nat {
    if c <= 1 then 0 else 1 + CeilLog2((c + 1) / 2)
  }

  lemma {:induction false} CeilLog2IsLeast(c: nat)
    ensures c <= Pow2(CeilLog2(c))
    ensures c > 1 ==> Pow2(CeilLog2(c) - 1) < c
  {
    if c > 1 {
      CeilLog2IsLeast((c + 1) / 2);
    }
  }

  /** One bit of value, by weight. */
  function IntBit(value: nat, k: nat): BitSetting {
    if value / Pow2(k) % 2 == 1 then High else Low
  }

  /** bitsettings_from_int: the bits of value, the highest first. */
  function BitSettingsFromInt(value: nat, numBits: nat): (r: seq<BitSetting>)
    ensures |r| == numBits
  {
    if numBits == 0 then [] else [IntBit(value, numBits - 1)] + BitSettingsFromInt(value, numBits - 1)
  }

  method PushBackInt(v: seq<BitSetting>, value: nat, numBits: nat) returns (r: seq<BitSetting>)
    ensures r == v + BitSettingsFromInt(value, numBits)
  {
    r := v;
    var ibit: nat := numBits;
    while ibit != 0
      invariant ibit <= numBits
      invariant r + BitSettingsFromInt(value, ibit) == v + BitSettingsFromInt(value, numBits)
    {
      r := r + [if value / Pow2(ibit - 1) % 2 == 1 then High else Low];
      ibit := ibit - 1;
    }
  }

  /** The number in a register, least significant bit first. */
  function UValue(word: seq<Bit>): nat {
    if word == [] then 0 else (if word[0] == B1 then 1 else 0) + 2 * UValue(word[1..])
  }

  lemma {:induction false} UValueSnoc(word: seq<Bit>, top: Bit)
    ensures UValue(word + [top]) == UValue(word) + (if top == B1 then Pow2(|word|) else 0)
  {
    if word == [] {
      assert ([top])[1..] == [] && word + [top] == [top];
    } else {
      UValueSnoc(word[1..], top);
      assert (word + [top])[1..] == word[1..] + [top];
    }
  }

  lemma SplitProduct(p: nat, half: nat, bit: nat)
    requires bit < 2
    ensures (2 * half + bit) * p == half * (2 * p) + (if bit == 1 then p else 0)
  {
    assert (2 * half) * p == half * (2 * p);
  }

  lemma TopBit(value: nat, n: nat)
    ensures value % Pow2(n + 1) == value % Pow2(n) + (if IntBit(value, n) == High then Pow2(n) else 0)
  {
    var p := Pow2(n);
    var q, r := value / p, value % p;
    SplitProduct(p, q / 2, q % 2);
    assert value == q * p + r;
    ModUnique(value, 2 * p, q / 2, (if q % 2 == 1 then p else 0) + r);
  }

  /** An integer that is turned into bit settings and loaded into a register
      reads there as itself, as far as the width allows. */
  lemma {:induction false} IntegerRoundTrip(value: nat, n: nat, r: seq<Bit>)
    requires WordHeld(BitSettingsFromInt(value, n), r)
    ensures UValue(r) == value % Pow2(n)
  {
    if n == 0 {
      assert value % 1 == 0;
    } else {
      var word, rest := BitSettingsFromInt(value, n), BitSettingsFromInt(value, n - 1);
      assert word == [IntBit(value, n - 1)] + rest;
      forall j | 0 <= j < |rest|
        ensures Says(r[..n - 1][|rest| - 1 - j], rest[j])
      {
        assert Says(r[|word| - 1 - (j + 1)], word[j + 1]);
      }
      IntegerRoundTrip(value, n - 1, r[..n - 1]);
      assert Says(r[|word| - 1 - 0], word[0]) && r == r[..n - 1] + [r[n - 1]];
      UValueSnoc(r[..n - 1], r[n - 1]);
      TopBit(value, n - 1);
    }
  }

  // The context counter.

  /** One clock of a counter register of the given width. */
  function CounterClock(width: nat, context: nat, used: nat, enable: bool): nat {
    if !enable then context
    else if context < used then (context + 1) % Pow2(width)
    else 0
  }

  /** The counter after a reset and a clock for each entry of enables. */
  function CounterRun(width: nat, used: nat, enables: seq<bool>): nat {
    if enables == [] then 0
    else CounterClock(width, CounterRun(width, used, enables[..|enables| - 1]), used, enables[|enables| - 1])
  }

  function EnabledTicks(enables: seq<bool>): nat {
    if enables == [] then 0
    else EnabledTicks(enables[..|enables| - 1]) + (if enables[|enables| - 1] then 1 else 0)
  }

  lemma NextRemainder(t: nat, n: nat)
    requires n > 0
    ensures (t + 1) % n == if t % n == n - 1 then 0 else t % n + 1
  {
    var q, r := t / n, t % n;
    assert t == q * n + r;
    if r == n - 1 {
      assert t + 1 == (q + 1) * n;
      ModUnique(t + 1, n, q + 1, 0);
    } else {
      ModUnique(t + 1, n, q, r + 1);
    }
  }

  /** The counter runs through 0 .. used over and over, one step per enabled tick. */
  lemma {:induction false} CounterFollowsTicks(width: nat, used: nat, enables: seq<bool>)
    requires used < Pow2(width)
    ensures CounterRun(width, used, enables) == EnabledTicks(enables) % (used + 1)
  {
    if enables == [] {
      ModUnique(0, used + 1, 0, 0);
    } else {
      var before := enables[..|enables| - 1];
      CounterFollowsTicks(width, used, before);
      NextRemainder(EnabledTicks(before), used + 1);
      var c := CounterRun(width, used, before);
      if c < used {
        ModUnique(c + 1, Pow2(width), 0, c + 1);
      }
    }
  }

  /** What the context cell produces for its one configuration cell. */
  function ContextCellConfig(ii: nat, contexts: nat): Setting
    requires ii > 0
  {
    [BitSettingsFromInt(ii - 1, CeilLog2(contexts))]
  }

  /** assign select = config_reg[Context]. */
  function Select(r: Regs, context: nat): seq<Bit>
    requires |r| > 0
  {
    if |r| == 1 then r[0] else if context < |r| then r[context] else []
  }

  /** The context cell's register holds II - 1. */
  lemma ContextCellHoldsII(r: Regs, ii: nat, contexts: nat)
    requires 1 <= ii <= contexts && CellImage(ContextCellConfig(ii, contexts), r)
    ensures UValue(r[0]) == ii - 1 && ii - 1 < Pow2(CeilLog2(contexts))
  {
    IntegerRoundTrip(ii - 1, CeilLog2(contexts), r[0]);
    CeilLog2IsLeast(contexts);
    ModUnique(ii - 1, Pow2(CeilLog2(contexts)), 0, ii - 1);
  }

  lemma ScheduledWord(c: Cell, produced: Setting, ii: nat, counterRegs: Regs, r: Regs, enables: seq<bool>)
    requires 1 <= ii <= c.contexts && c.contexts > 1 && |produced| >= ii
    requires CellImage(ContextCellConfig(ii, c.contexts), counterRegs)
    requires CellImage(Padded(c, produced, ii), r)
    ensures |r| > 0 && |counterRegs| > 0 && EnabledTicks(enables) % ii < ii
    ensures var context := CounterRun(CeilLog2(c.contexts), UValue(counterRegs[0]), enables);
            WordHeld(produced[EnabledTicks(enables) % ii], Select(r, context))
  {
    ContextCellHoldsII(counterRegs, ii, c.contexts);
    CounterFollowsTicks(CeilLog2(c.contexts), ii - 1, enables);
  }

  lemma PaddedContextCell(c: Cell, ii: nat, contexts: nat)
    requires c.contexts == 1 && ii > 0
    ensures Padded(c, ContextCellConfig(ii, contexts), ii) == ContextCellConfig(ii, contexts)
  {
  }

  /** Main result: once the bitstream is loaded, a multi-context cell selects
      after any pattern of enabled ticks the word that its module produced for
      context t mod II, where t is the number of enabled ticks since reset. */
  lemma SelectFollowsSchedule(top: Module, h: Hw, prefix: seq<Bit>, produce: Cell -> Setting, ii: nat, contexts: nat,
                              counter: nat, k: nat, enables: seq<bool>)
    requires Fits(top, h) && NoStrayCells(top) && WidthsRight(ConfigOrder(top), produce, ii)
    requires 1 <= ii <= contexts && contexts > 1
    requires counter < |ConfigOrder(top)| && k < |ConfigOrder(top)|
    requires ConfigOrder(top)[counter].contexts == 1
    requires produce(ConfigOrder(top)[counter]) == ContextCellConfig(ii, contexts)
    requires ConfigOrder(top)[k].contexts == contexts && |produce(ConfigOrder(top)[k])| >= ii
    ensures var rs := RegsOrder(Feed(top, h, prefix + Reverse(Flatten(AllPadded(ConfigOrder(top), produce, ii)))));
            && |rs| == |ConfigOrder(top)| && |rs[counter]| > 0 && |rs[k]| > 0
            && var context := CounterRun(CeilLog2(contexts), UValue(rs[counter][0]), enables);
               && EnabledTicks(enables) % ii < ii
               && WordHeld(produce(ConfigOrder(top)[k])[EnabledTicks(enables) % ii], Select(rs[k], context))
  {
    var cells := ConfigOrder(top);
    var settings := AllPadded(cells, produce, ii);
    GeneratedBitStreamLoads(top, h, prefix, produce, ii);
    var rs := RegsOrder(Feed(top, h, prefix + Reverse(Flatten(settings))));
    PaddedContextCell(cells[counter], ii, contexts);
    ScheduledWord(cells[k], produce(cells[k]), ii, rs[counter], rs[k], enables);
  }
}
