// The configuration bitstream: how it is generated, how it is printed, and
// what it leaves in the scan chain.
module BitStreams {
  import opened Wrappers
  import opened Seqs
  import opened ConfigChain

  datatype BitSetting = Low | High | DontCarePreferLow | DontCarePreferHigh | HighImpedance

  function ForVerilog(b: BitSetting): Bit {
    match b
    case Low => B0
    case High => B1
    case DontCarePreferLow => BX
    case DontCarePreferHigh => BX
    case HighImpedance => BZ
  }

  // The bits of one cell: by context, and within a context from first to last.
  type Setting = seq<seq<BitSetting>>

  function WordBits(word: seq<BitSetting>): (r: seq<Bit>)
    ensures |r| == |word|
  {
    seq(|word|, j requires 0 <= j < |word| => ForVerilog(word[j]))
  }

  function SettingBits(setting: Setting): seq<Bit> {
    if setting == [] then [] else WordBits(setting[0]) + SettingBits(setting[1..])
  }

  /** All bits in chain order, by cell, context and position. */
  function Flatten(settings: seq<Setting>): seq<Bit> {
    if settings == [] then [] else SettingBits(settings[0]) + Flatten(settings[1..])
  }

  function LowWord(size: nat): (r: seq<BitSetting>)
    ensures |r| == size
  {
    seq(size, _ => Low)
  }

  /** The used contexts as produced, the unused ones low. */
  function Padded(c: Cell, produced: Setting, ii: nat): Setting
    requires |produced| >= ii || |produced| >= c.contexts
  {
    seq(c.contexts, cycle requires 0 <= cycle < c.contexts => if cycle < ii then produced[cycle] else LowWord(c.size))
  }

  function AllPadded(cells: seq<Cell>, produce: Cell -> Setting, ii: nat): (r: seq<Setting>)
    requires forall c :: c in cells ==> |produce(c)| >= ii || |produce(c)| >= c.contexts
    ensures |r| == |cells|
  {
    seq(|cells|, k requires 0 <= k < |cells| => Padded(cells[k], produce(cells[k]), ii))
  }

  class BitStream {
    var storage: map<Cell, Setting>
    var order: seq<Cell>

    ghost predicate Valid()
      reads this
    {
      NoDup(order) && forall c :: c in order <==> c in storage
    }

    /** The stored settings in chain order. */
    function InOrder(): seq<Setting>
      reads this
      requires Valid()
    {
      seq(|order|, k reads this requires Valid() && 0 <= k < |order| => storage[order[k]])
    }

    constructor ()
      ensures Valid() && order == []
    {
      storage, order := map[], [];
    }

    /** Throws, that is returns false, for a cell that already has a setting. */
    method Append(c: Cell, bits: Setting) returns (ok: bool)
      requires Valid()
      modifies this
      ensures Valid()
      ensures ok <==> c !in old(order)
      ensures !ok ==> order == old(order) && storage == old(storage)
      ensures ok ==> order == old(order) + [c] && storage == old(storage)[c := bits]
    {
      ok := c !in storage;
      if ok {
        storage := storage[c := bits];
        AppendNoDup(order, c);
        order := order + [c];
      }
    }

    /** The contents of the configurator's storage: cells, contexts and bits,
        each from last to first. The declared length counts one bit more than
        the settings have, and Verilog fills up on the left with zeros. */
    method PrintTestbench() returns (totalNumBits: nat, printed: seq<Bit>)
      requires Valid()
      ensures printed == Reverse(Flatten(InOrder()))
      ensures totalNumBits == 1 + TotalSize(order, InOrder())
    {
      totalNumBits := 1;
      for k := 0 to |order|
        invariant totalNumBits == 1 + TotalSize(order[..k], InOrder()[..k])
      {
        assert order[..k + 1][..k] == order[..k] && InOrder()[..k + 1][..k] == InOrder()[..k];
        totalNumBits := totalNumBits + order[k].size * |storage[order[k]]|;
      }
      assert order[..|order|] == order && InOrder()[..|order|] == InOrder();
      printed := [];
      for k := |order| downto 0
        invariant printed == Reverse(Flatten(InOrder()[k..]))
      {
        var setting := storage[order[k]];
        var mine := PrintSetting(setting);
        ReverseConcat(SettingBits(setting), Flatten(InOrder()[k + 1..]));
        assert InOrder()[k..][1..] == InOrder()[k + 1..];
        printed := printed + mine;
      }
      assert InOrder()[0..] == InOrder();
    }
  }

  function TotalSize(cells: seq<Cell>, settings: seq<Setting>): nat
    requires |cells| == |settings|
  {
    if cells == [] then 0
    else
      var k := |cells| - 1;
      TotalSize(cells[..k], settings[..k]) + cells[k].size * |settings[k]|
  }

  method PrintSetting(setting: Setting) returns (printed: seq<Bit>)
    ensures printed == Reverse(SettingBits(setting))
  {
    printed := [];
    for cycle := |setting| downto 0
      invariant printed == Reverse(SettingBits(setting[cycle..]))
    {
      var word := setting[cycle];
      var mine := [];
      for j := |word| downto 0
        invariant mine == Reverse(WordBits(word[j..]))
      {
        assert WordBits(word[j..]) == [ForVerilog(word[j])] + WordBits(word[j + 1..]);
        assert WordBits(word[j..])[1..] == WordBits(word[j + 1..]);
        mine := mine + [ForVerilog(word[j])];
      }
      assert word[0..] == word;
      ReverseConcat(WordBits(word), SettingBits(setting[cycle + 1..]));
      assert setting[cycle..][1..] == setting[cycle + 1..];
      printed := printed + mine;
    }
    assert setting[0..] == setting;
  }

  method PadContexts(c: Cell, value: Setting, ii: nat) returns (padded: Setting)
    requires |value| >= ii || |value| >= c.contexts
    ensures padded == Padded(c, value, ii)
  {
    padded := [];
    for cycle := 0 to c.contexts
      invariant |padded| == cycle
      invariant forall i :: 0 <= i < cycle ==> padded[i] == if i < ii then value[i] else LowWord(c.size)
    {
      padded := padded + [if cycle < ii then value[cycle] else LowWord(c.size)];
    }
  }

  /** Pads, checks and stores the setting of one cell. */
  method AddCell(bs: BitStream, c: Cell, value: Setting, ii: nat) returns (ok: bool)
    requires bs.Valid() && |value| > 0 && (|value| >= ii || |value| >= c.contexts)
    modifies bs
    ensures bs.Valid()
    ensures ok <==> |value[0]| == c.size && c !in old(bs.order)
    ensures ok ==> bs.order == old(bs.order) + [c] && bs.storage == old(bs.storage)[c := Padded(c, value, ii)]
  {
    var padded := PadContexts(c, value, ii);
    if |value[0]| != c.size {
      return false;
    }
    ok := bs.Append(c, padded);
  }

  ghost predicate Stored(bs: BitStream, cells: seq<Cell>, produce: Cell -> Setting, ii: nat)
    reads bs
  {
    forall c :: c in cells ==>
      && (|produce(c)| >= ii || |produce(c)| >= c.contexts)
      && c in bs.storage && bs.storage[c] == Padded(c, produce(c), ii)
  }

  // What the bitstream holds when these cells have been added.
  ghost predicate Added(bs: BitStream, cells: seq<Cell>, produce: Cell -> Setting, ii: nat)
    reads bs
  {
    bs.Valid() && bs.order == cells && Stored(bs, cells, produce, ii)
  }

  lemma Repeated(cells: seq<Cell>, k: nat)
    requires k < |cells|
    ensures cells[k] in cells[..k] ==> !NoDup(cells)
  {
    if cells[k] in cells[..k] {
      var i :| 0 <= i < k && cells[..k][i] == cells[k];
      assert cells[i] == cells[k];
    }
  }

  method AddNext(bs: BitStream, cells: seq<Cell>, c: Cell, produce: Cell -> Setting, ii: nat) returns (ok: bool)
    requires Added(bs, cells, produce, ii) && |produce(c)| > 0 && (|produce(c)| >= ii || |produce(c)| >= c.contexts)
    modifies bs
    ensures ok <==> |produce(c)[0]| == c.size && c !in cells
    ensures ok ==> Added(bs, cells + [c], produce, ii)
  {
    ok := AddCell(bs, c, produce(c), ii);
  }

  /** genBitStream. None stands for its exceptions: a cell that is listed
      twice, or a first context of the wrong width. */
  method GenBitStream(top: Module, ii: nat, produce: Cell -> Setting) returns (result: Option<BitStream>)
    requires forall c :: c in ConfigOrder(top) ==> |produce(c)| > 0 && (|produce(c)| >= ii || |produce(c)| >= c.contexts)
    ensures result.Some? <==>
            NoDup(ConfigOrder(top)) && forall c :: c in ConfigOrder(top) ==> |produce(c)[0]| == c.size
    ensures result.Some? ==> fresh(result.value) && result.value.Valid() && result.value.order == ConfigOrder(top)
    ensures result.Some? ==> result.value.InOrder() == AllPadded(ConfigOrder(top), produce, ii)
  {
    var table := GenConfigOrder(top, []);
    assert table == ConfigOrder(top);
    var bs := new BitStream();
    for k := 0 to |table|
      invariant fresh(bs) && Added(bs, table[..k], produce, ii)
      invariant forall c :: c in table[..k] ==> |produce(c)[0]| == c.size
    {
      assert table[k] in table && table[..k + 1] == table[..k] + [table[k]];
      var ok := AddNext(bs, table[..k], table[k], produce, ii);
      if !ok {
        Repeated(table, k);
        return None;
      }
    }
    assert table[..|table|] == table;
    StoredInOrder(bs, produce, ii);
    return Some(bs);
  }

  lemma StoredInOrder(bs: BitStream, produce: Cell -> Setting, ii: nat)
    requires bs.Valid() && Stored(bs, bs.order, produce, ii)
    ensures bs.InOrder() == AllPadded(bs.order, produce, ii)
  {
  }
}
