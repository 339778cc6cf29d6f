// From the settings that the modules produce to a configured array: the bitstream is generated, printed
// into a configurator, and played into the scan chain.
module Testbench {
  import opened Wrappers
  import opened Seqs
  import opened ConfigChain
  import opened BitStreams
  import opened ScanLoad
  import opened ScanRuns

  ghost predicate Prompt(pulses: seq<Pulse>, clocks: nat) {
    |Enables(pulses)| == clocks && forall j :: 0 <= j < clocks ==> Enables(pulses)[j]
  }

  /** The run is done and leaves every cell as its module wants it. */
  ghost predicate ConfiguredBy(top: Module, h: Hw, produce: Cell -> Setting, ii: nat, total: nat, bits: seq<Bit>,
                               pulses: seq<Pulse>)
    requires Fits(top, h)
  {
    var (s, g) := Run(top, h, StorageOf(total, bits), pulses);
    s.done && AllConfigured(top, produce, ii, g)
  }

  /** So does every run of the configurator that nothing delays, for a storage that is declared that long. */
  ghost predicate Configures(top: Module, produce: Cell -> Setting, ii: nat, total: nat, bits: seq<Bit>) {
    forall h, pulses :: Fits(top, h) && Prompt(pulses, |bits| + 2) ==>
      ConfiguredBy(top, h, produce, ii, total, bits, pulses)
  }

  lemma PromptRunConfigures(top: Module, h: Hw, produce: Cell -> Setting, ii: nat, settings: seq<Setting>,
                            pulses: seq<Pulse>)
    requires Fits(top, h) && NoStrayCells(top) && WidthsRight(ConfigOrder(top), produce, ii)
    requires settings == AllPadded(ConfigOrder(top), produce, ii) && Prompt(pulses, |Printed(settings)| + 2)
    ensures ConfiguredBy(top, h, produce, ii, 1 + TotalSize(ConfigOrder(top), settings), Printed(settings), pulses)
  {
    PaddedShape(ConfigOrder(top), produce, ii);
    StorageIsFilledUp(top, settings);
    PromptRunLoads(top, h, settings, pulses);
    LoadedIsConfigured(top, Run(top, h, StorageFor(top, settings), pulses).1, produce, ii);
  }

  lemma PromptRunsConfigure(top: Module, produce: Cell -> Setting, ii: nat, settings: seq<Setting>, total: nat,
                            bits: seq<Bit>)
    requires NoStrayCells(top) && WidthsRight(ConfigOrder(top), produce, ii)
    requires settings == AllPadded(ConfigOrder(top), produce, ii)
    requires total == 1 + TotalSize(ConfigOrder(top), settings) && bits == Reverse(Flatten(settings))
    ensures Configures(top, produce, ii, total, bits)
  {
    var clocks := |bits| + 2;
    forall h, pulses | Fits(top, h) && Prompt(pulses, clocks)
      ensures ConfiguredBy(top, h, produce, ii, total, bits, pulses)
    {
      PromptRunConfigures(top, h, produce, ii, settings, pulses);
    }
  }

  /** createTestbench: generates the bitstream and prints the configurator, with the length that its storage is
      declared with. If all widths are right, a run of the configurator that nothing delays is done when every bit
      has been put out, and leaves every cell as its module wants it. */
  method CreateTestbench(top: Module, ii: nat, produce: Cell -> Setting) returns (printed: Option<(nat, seq<Bit>)>)
    requires forall c :: c in ConfigOrder(top) ==> |produce(c)| > 0 && (|produce(c)| >= ii || |produce(c)| >= c.contexts)
    ensures printed.Some? <==>
            NoDup(ConfigOrder(top)) && forall c :: c in ConfigOrder(top) ==> |produce(c)[0]| == c.size
    ensures printed.Some? && NoStrayCells(top) && WidthsRight(ConfigOrder(top), produce, ii) ==>
              Configures(top, produce, ii, printed.value.0, printed.value.1)
  {
    var bs := GenBitStream(top, ii, produce);
    if bs.None? {
      return None;
    }
    var totalNumBits, bits := bs.value.PrintTestbench();
    printed := Some((totalNumBits, bits));
    if NoStrayCells(top) && WidthsRight(ConfigOrder(top), produce, ii) {
      PromptRunsConfigure(top, produce, ii, bs.value.InOrder(), totalNumBits, bits);
    }
  }
}
