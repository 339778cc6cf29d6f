// The configurator, which plays its storage into the scan chain: what the chain
// holds once it reports done, whatever its enable input and its clock did.
module ScanRuns {
  import opened ConfigChain
  import opened BitStreams
  import opened ScanLoad

  /** What the storage holds when its declared length is total. */
  function StorageOf(total: nat, printed: seq<Bit>): seq<Bit> {
    if |printed| <= total then seq(total - |printed|, _ => B0) + printed else printed[|printed| - total..]
  }

  /** The bits of the settings in the order in which they are printed. */
  function Printed(settings: seq<Setting>): (r: seq<Bit>)
    ensures |r| == |Flatten(settings)|
  {
    Reverse(Flatten(settings))
  }

  /** The storage of a configurator for the settings. */
  function StorageFor(top: Module, settings: seq<Setting>): seq<Bit>
    requires |ConfigOrder(top)| == |settings|
  {
    StorageOf(1 + TotalSize(ConfigOrder(top), settings), Printed(settings))
  }

  datatype Configurator = Configurator(pos: nat, bitstream: Bit, done: bool)

  const AFTER_RESET := Configurator(0, B0, false)

  /** One clock without reset. */
  function ClockConfigurator(storage: seq<Bit>, s: Configurator, enable: bool): Configurator {
    if s.pos >= |storage| then Configurator(s.pos, B0, true)
    else if enable then Configurator(s.pos + 1, storage[s.pos], s.done)
    else s
  }

  // One period of the system clock: whether the configuration clock, which
  // drives both the configurator and the chain, is let through, and the enable input.
  datatype Pulse = Pulse(clock: bool, enable: bool)

  /** Configurator and chain after the pulses; the chain samples the
      bitstream register as it was before the clock. */
  function Run(top: Module, h: Hw, storage: seq<Bit>, pulses: seq<Pulse>): (r: (Configurator, Hw))
    requires Fits(top, h)
    ensures Fits(top, r.1)
  {
    if pulses == [] then (AFTER_RESET, h)
    else
      var (s, g) := Run(top, h, storage, pulses[..|pulses| - 1]);
      var last := pulses[|pulses| - 1];
      if !last.clock then (s, g)
      else
        TickFits(top, g, s.bitstream);
        (ClockConfigurator(storage, s, last.enable), Tick(top, g, s.bitstream))
  }

  /** The enable input as the configurator sees it, clock by clock. */
  function Enables(pulses: seq<Pulse>): seq<bool> {
    if pulses == [] then []
    else
      var last := pulses[|pulses| - 1];
      Enables(pulses[..|pulses| - 1]) + if last.clock then [last.enable] else []
  }

  function Play(storage: seq<Bit>, enables: seq<bool>): Configurator {
    if enables == [] then AFTER_RESET
    else ClockConfigurator(storage, Play(storage, enables[..|enables| - 1]), enables[|enables| - 1])
  }

  /** The bits that the chain has sampled. */
  function Fed(storage: seq<Bit>, enables: seq<bool>): (r: seq<Bit>)
    ensures |r| == |enables|
  {
    seq(|enables|, j requires 0 <= j < |enables| => Play(storage, enables[..j]).bitstream)
  }

  lemma FedSnoc(storage: seq<Bit>, enables: seq<bool>, enable: bool)
    ensures Fed(storage, enables + [enable]) == Fed(storage, enables) + [Play(storage, enables).bitstream]
  {
    var longer := enables + [enable];
    assert longer[..|enables|] == enables;
    forall j | 0 <= j < |enables|
      ensures longer[..j] == enables[..j]
    {
    }
  }

  /** A period without a configuration clock changes nothing; the others feed
      the chain what the bitstream register held. */
  lemma {:induction false} RunFeeds(top: Module, h: Hw, storage: seq<Bit>, pulses: seq<Pulse>)
    requires Fits(top, h)
    ensures Run(top, h, storage, pulses).0 == Play(storage, Enables(pulses))
    ensures Run(top, h, storage, pulses).1 == Feed(top, h, Fed(storage, Enables(pulses)))
  {
    if pulses == [] {
      assert Fed(storage, []) == [];
    } else {
      var rest, last := pulses[..|pulses| - 1], pulses[|pulses| - 1];
      RunFeeds(top, h, storage, rest);
      if last.clock {
        var enables := Enables(rest);
        assert Enables(pulses) == enables + [last.enable];
        assert (enables + [last.enable])[..|enables|] == enables;
        FedSnoc(storage, enables, last.enable);
        FeedSnoc(top, h, Fed(storage, enables), Play(storage, enables).bitstream);
      } else {
        assert Enables(pulses) == Enables(rest);
      }
    }
  }

  // The bitstream register as a position on a tape.

  /** All that the register ever holds, in order: the reset value, the storage, and zeros from then on. */
  function Tape(storage: seq<Bit>): seq<Bit> {
    [B0] + storage + [B0]
  }

  /** How far on its tape the configurator is after j clocks. */
  function At(storage: seq<Bit>, enables: seq<bool>, j: nat): nat
    requires j <= |enables|
  {
    var s := Play(storage, enables[..j]);
    s.pos + if s.done then 1 else 0
  }

  function Enabled(enables: seq<bool>): (r: nat)
    ensures r <= |enables|
  {
    if enables == [] then 0 else Enabled(enables[..|enables| - 1]) + if enables[|enables| - 1] then 1 else 0
  }

  lemma {:induction false} OnTape(storage: seq<Bit>, enables: seq<bool>)
    ensures var s := Play(storage, enables);
            && s.pos == (if Enabled(enables) < |storage| then Enabled(enables) else |storage|)
            && (s.done <==> enables != [] && Enabled(enables[..|enables| - 1]) >= |storage|)
            && (s.done ==> s.pos == |storage|)
            && s.bitstream == Tape(storage)[s.pos + if s.done then 1 else 0]
  {
    if enables != [] {
      OnTape(storage, enables[..|enables| - 1]);
    }
  }

  // The j-th clock leaves the register as it is.
  predicate Stalls(storage: seq<Bit>, enables: seq<bool>, j: nat)
    requires j < |enables|
  {
    At(storage, enables, j + 1) == At(storage, enables, j)
  }

  /** The configurator stalls while it is not enabled and has bits left, and for good once it is done. */
  lemma StallsWhen(storage: seq<Bit>, enables: seq<bool>, j: nat)
    requires j < |enables|
    ensures Stalls(storage, enables, j) <==>
              Play(storage, enables[..j]).done || (Enabled(enables[..j]) < |storage| && !enables[j])
    ensures !Stalls(storage, enables, j) ==> At(storage, enables, j + 1) == At(storage, enables, j) + 1
    ensures At(storage, enables, j) <= |storage| + 1
    ensures At(storage, enables, j) == |storage| + 1 <==> Play(storage, enables[..j]).done
  {
    OnTape(storage, enables[..j]);
    assert enables[..j + 1][..j] == enables[..j];
  }

  lemma {:induction false} StepsBetween(storage: seq<Bit>, enables: seq<bool>, a: nat, b: nat)
    requires a <= b <= |enables|
    ensures At(storage, enables, a) <= At(storage, enables, b) <= At(storage, enables, a) + (b - a)
    ensures At(storage, enables, b) == At(storage, enables, a) + (b - a) <==>
            forall j :: a <= j < b ==> !Stalls(storage, enables, j)
  {
    if a < b {
      StepsBetween(storage, enables, a, b - 1);
      StallsWhen(storage, enables, b - 1);
    }
  }

  /** The tape holds one value from its third bit, the first of a setting, to its p-th. */
  predicate Constant(storage: seq<Bit>, p: nat) {
    forall q :: 2 <= q < p < |Tape(storage)| ==> Tape(storage)[q] == Tape(storage)[p]
  }

  lemma {:induction false} LastStall(storage: seq<Bit>, enables: seq<bool>, j: nat, n: nat) returns (last: nat)
    requires j < n <= |enables| && Stalls(storage, enables, j)
    ensures j <= last < n && Stalls(storage, enables, last)
    ensures forall k :: last < k < n ==> !Stalls(storage, enables, k)
  {
    if Stalls(storage, enables, n - 1) {
      last := n - 1;
    } else {
      last := LastStall(storage, enables, j, n - 1);
    }
  }

  // Where the tape was when the bit that should be its q-th one was fed.
  function Source(storage: seq<Bit>, enables: seq<bool>, q: nat): nat
    requires 2 <= q <= |storage| <= |enables|
  {
    At(storage, enables, |enables| + q - |storage| - 1)
  }

  // The last bits fed are those of the tape from the third one on.
  ghost predicate EndsRight(storage: seq<Bit>, enables: seq<bool>)
    requires |storage| < |enables|
  {
    forall q {:trigger Source(storage, enables, q)} :: 2 <= q <= |storage| ==>
      Source(storage, enables, q) < |Tape(storage)| && Tape(storage)[Source(storage, enables, q)] == Tape(storage)[q]
  }

  /** The bit fed in place of the q-th one comes later on the tape if and only if there was a stall since. */
  lemma SourceIsLate(storage: seq<Bit>, enables: seq<bool>, q: nat)
    requires 2 <= q <= |storage| < |enables| && Play(storage, enables).done
    ensures q <= Source(storage, enables, q) < |Tape(storage)|
    ensures q == Source(storage, enables, q) <==>
              forall j :: |enables| + q - |storage| - 1 <= j < |enables| ==> !Stalls(storage, enables, j)
  {
    assert enables[..|enables|] == enables;
    OnTape(storage, enables);
    StepsBetween(storage, enables, |enables| + q - |storage| - 1, |enables|);
  }

  // The register never stalled after it had put out two different bits of the settings.
  ghost predicate StallsHarmlessly(storage: seq<Bit>, enables: seq<bool>) {
    forall j :: 0 <= j < |enables| && Stalls(storage, enables, j) ==> Constant(storage, At(storage, enables, j))
  }

  lemma LateStalls(storage: seq<Bit>, enables: seq<bool>, q: nat) returns (j: nat)
    requires 2 <= q <= |storage| < |enables| && Play(storage, enables).done && q < Source(storage, enables, q)
    ensures |enables| + q - |storage| - 1 <= j < |enables| && Stalls(storage, enables, j)
  {
    SourceIsLate(storage, enables, q);
    j :| |enables| + q - |storage| - 1 <= j < |enables| && Stalls(storage, enables, j);
  }

  // Where a bit comes late there was a stall, and the tape is constant up to it.
  lemma LateIsConstant(storage: seq<Bit>, enables: seq<bool>, q: nat) returns (p: nat)
    requires 2 <= q <= |storage| < |enables| && Play(storage, enables).done && StallsHarmlessly(storage, enables)
    requires q < Source(storage, enables, q)
    ensures Source(storage, enables, q) <= p <= |storage| + 1 && Constant(storage, p)
  {
    var j := LateStalls(storage, enables, q);
    StepsBetween(storage, enables, |enables| + q - |storage| - 1, j);
    StallsWhen(storage, enables, j);
    p := At(storage, enables, j);
  }

  lemma HarmlessSource(storage: seq<Bit>, enables: seq<bool>, q: nat)
    requires 2 <= q <= |storage| < |enables| && Play(storage, enables).done && StallsHarmlessly(storage, enables)
    ensures Source(storage, enables, q) < |Tape(storage)|
    ensures Tape(storage)[Source(storage, enables, q)] == Tape(storage)[q]
  {
    SourceIsLate(storage, enables, q);
    if q < Source(storage, enables, q) {
      var p := LateIsConstant(storage, enables, q);
      SameFromThen(storage, q, Source(storage, enables, q), p);
    }
  }

  lemma SameFromThen(storage: seq<Bit>, q: nat, r: nat, p: nat)
    requires Constant(storage, p) && 2 <= q <= r <= p < |Tape(storage)|
    ensures Tape(storage)[q] == Tape(storage)[r]
  {
  }

  lemma HarmlessEndsRight(storage: seq<Bit>, enables: seq<bool>)
    requires |storage| < |enables| && Play(storage, enables).done && StallsHarmlessly(storage, enables)
    ensures EndsRight(storage, enables)
  {
    forall q {:trigger Source(storage, enables, q)} | 2 <= q <= |storage| {
      HarmlessSource(storage, enables, q);
    }
  }

  /** Going back from the last stall, every bit equals a later one. */
  lemma {:induction false} BackFromStall(storage: seq<Bit>, enables: seq<bool>, last: nat, q: nat)
    requires |storage| < |enables| && Play(storage, enables).done && EndsRight(storage, enables)
    requires last < |enables| && Stalls(storage, enables, last)
    requires forall k :: last < k < |enables| ==> !Stalls(storage, enables, k)
    requires 2 <= q <= At(storage, enables, last)
    ensures q <= At(storage, enables, last) < |Tape(storage)|
    ensures Tape(storage)[q] == Tape(storage)[At(storage, enables, last)]
    decreases At(storage, enables, last) - q
  {
    StallsWhen(storage, enables, last);
    if q < At(storage, enables, last) {
      SourceIsLate(storage, enables, q);
      var a := |enables| + q - |storage| - 1;
      if a <= last {
        StepsBetween(storage, enables, a, last);
      } else {
        StepsBetween(storage, enables, last, a);
      }
      BackFromStall(storage, enables, last, Source(storage, enables, q));
    }
  }

  lemma EndsRightHarmless(storage: seq<Bit>, enables: seq<bool>)
    requires |storage| < |enables| && Play(storage, enables).done && EndsRight(storage, enables)
    ensures StallsHarmlessly(storage, enables)
  {
    forall j | 0 <= j < |enables| && Stalls(storage, enables, j)
      ensures Constant(storage, At(storage, enables, j))
    {
      var last := LastStall(storage, enables, j, |enables|);
      StepsBetween(storage, enables, j, last);
      StallsWhen(storage, enables, last);
      forall q | 2 <= q <= At(storage, enables, j)
        ensures Tape(storage)[q] == Tape(storage)[At(storage, enables, last)]
      {
        BackFromStall(storage, enables, last, q);
      }
    }
  }

  // What that means for the chain.

  /** The settings are one bit short of the declared length. */
  lemma StorageIsFilledUp(top: Module, settings: seq<Setting>)
    requires Shaped(ConfigOrder(top), settings)
    ensures StorageFor(top, settings) == [B0] + Printed(settings)
    ensures |Printed(settings)| == TotalSize(ConfigOrder(top), settings)
  {
    FlattenLength(ConfigOrder(top), settings);
    assert 1 + TotalSize(ConfigOrder(top), settings) - |Printed(settings)| == 1;
  }

  lemma FedBit(storage: seq<Bit>, enables: seq<bool>, j: nat)
    requires j < |enables|
    ensures At(storage, enables, j) < |Tape(storage)|
    ensures Fed(storage, enables)[j] == Tape(storage)[At(storage, enables, j)]
  {
    OnTape(storage, enables[..j]);
  }

  lemma FedAt(storage: seq<Bit>, enables: seq<bool>, printed: seq<Bit>, q: nat)
    requires storage == [B0] + printed && 2 <= q <= |storage| < |enables|
    ensures Source(storage, enables, q) < |Tape(storage)|
    ensures Fed(storage, enables)[|enables| - |printed|..][q - 2] == Tape(storage)[Source(storage, enables, q)]
    ensures printed[q - 2] == Tape(storage)[q]
  {
    FedBit(storage, enables, |enables| + q - |storage| - 1);
  }

  lemma LastFed(storage: seq<Bit>, enables: seq<bool>, printed: seq<Bit>)
    requires storage == [B0] + printed && |storage| < |enables| && Play(storage, enables).done
    ensures EndsRight(storage, enables) <==> Fed(storage, enables)[|enables| - |printed|..] == printed
  {
    var tail := Fed(storage, enables)[|enables| - |printed|..];
    forall q {:trigger Source(storage, enables, q)} | 2 <= q <= |storage| {
      FedAt(storage, enables, printed, q);
    }
    if EndsRight(storage, enables) {
      forall i | 0 <= i < |printed|
        ensures tail[i] == printed[i]
      {
        var late := Source(storage, enables, i + 2);
      }
    }
  }

  /** When the configurator is done. */
  ghost predicate DoneBy(enables: seq<bool>, total: nat) {
    enables != [] && Enabled(enables[..|enables| - 1]) >= total
  }

  lemma DoneLoads(top: Module, h: Hw, settings: seq<Setting>, storage: seq<Bit>, enables: seq<bool>)
    requires Fits(top, h) && NoStrayCells(top) && Shaped(ConfigOrder(top), settings)
    requires storage == [B0] + Printed(settings) && Play(storage, enables).done
    ensures Loaded(Feed(top, h, Fed(storage, enables)), settings) <==> StallsHarmlessly(storage, enables)
  {
    OnTape(storage, enables);
    var printed := Printed(settings);
    var fed := Fed(storage, enables);
    var k := |enables| - |printed|;
    assert fed == fed[..k] + fed[k..];
    LoadedByLastBits(top, h, fed[..k], fed[k..], settings);
    LastFed(storage, enables, printed);
    if StallsHarmlessly(storage, enables) {
      HarmlessEndsRight(storage, enables);
    }
    if EndsRight(storage, enables) {
      EndsRightHarmless(storage, enables);
    }
  }

  // The stalls in terms of the inputs.

  /** The first n bits are the same. */
  predicate SameBits(bits: seq<Bit>, n: nat)
    requires n <= |bits|
  {
    forall i, j :: 0 <= i < j < n ==> bits[i] == bits[j]
  }

  // How many of the printed bits have been put out when k bits of the storage have.
  function PutOut(k: nat): nat {
    if k == 0 then 0 else k - 1
  }

  /** Whenever the configurator was held back before its last bit, the printed bits that it had put out were
      all the same. */
  ghost predicate HeldHarmlessly(printed: seq<Bit>, enables: seq<bool>) {
    forall j {:trigger enables[j]} :: 0 <= j < |enables| && !enables[j] && Enabled(enables[..j]) <= |printed| ==>
      SameBits(printed, PutOut(Enabled(enables[..j])))
  }

  lemma ConstantIsSame(printed: seq<Bit>, p: nat)
    requires p <= |printed| + 1
    ensures Constant([B0] + printed, p) <==> SameBits(printed, PutOut(p))
  {
    var tape := Tape([B0] + printed);
    assert forall i :: 0 <= i < |printed| ==> printed[i] == tape[i + 2];
    if Constant([B0] + printed, p) {
      forall i, j | 0 <= i < j < PutOut(p)
        ensures printed[i] == printed[j]
      {
        assert tape[i + 2] == tape[p];
        assert tape[j + 2] == tape[p];
      }
    }
  }

  lemma ConstantToTheEnd(printed: seq<Bit>)
    ensures Constant([B0] + printed, |printed| + 2) <==> forall i :: 0 <= i < |printed| ==> printed[i] == B0
  {
    var tape := Tape([B0] + printed);
    assert forall i :: 0 <= i < |printed| ==> printed[i] == tape[i + 2];
    assert tape[|printed| + 2] == B0;
    if Constant([B0] + printed, |printed| + 2) {
      forall i | 0 <= i < |printed|
        ensures printed[i] == B0
      {
        assert tape[i + 2] == tape[|printed| + 2];
      }
    }
  }

  ghost predicate AllLow(bits: seq<Bit>) {
    forall i :: 0 <= i < |bits| ==> bits[i] == B0
  }

  lemma StallAt(printed: seq<Bit>, enables: seq<bool>, j: nat)
    requires j < |enables|
    ensures var storage := [B0] + printed;
            (Stalls(storage, enables, j) ==> Constant(storage, At(storage, enables, j))) <==>
            if DoneBy(enables[..j], |storage|) then AllLow(printed)
            else !enables[j] && Enabled(enables[..j]) <= |printed| ==> SameBits(printed, PutOut(Enabled(enables[..j])))
  {
    var storage := [B0] + printed;
    OnTape(storage, enables[..j]);
    StallsWhen(storage, enables, j);
    if DoneBy(enables[..j], |storage|) {
      ConstantToTheEnd(printed);
    } else if Enabled(enables[..j]) <= |printed| {
      ConstantIsSame(printed, Enabled(enables[..j]));
    }
  }

  lemma {:induction false} EnabledGrows(enables: seq<bool>, j: nat)
    requires j <= |enables|
    ensures Enabled(enables[..j]) <= Enabled(enables)
  {
    if j < |enables| {
      assert enables[..|enables| - 1][..j] == enables[..j];
      EnabledGrows(enables[..|enables| - 1], j);
    } else {
      assert enables[..j] == enables;
    }
  }

  lemma DoneStaysDone(enables: seq<bool>, j: nat, total: nat)
    requires j <= |enables| && DoneBy(enables[..j], total)
    ensures DoneBy(enables, total)
  {
    var front := enables[..|enables| - 1];
    assert front[..j - 1] == enables[..j][..j - 1];
    EnabledGrows(front, j - 1);
  }

  /** When a run that has ended with done leaves the printed bits in the chain. If done rose with the last clock:
      when the configurator was never held back after two different bits. If the chain
      has been clocked on since: when every bit is low. */
  ghost predicate KeepsSettings(printed: seq<Bit>, enables: seq<bool>)
    requires enables != []
  {
    if DoneBy(enables[..|enables| - 1], 1 + |printed|) then AllLow(printed) else HeldHarmlessly(printed, enables)
  }

  lemma StallsOfInputs(printed: seq<Bit>, enables: seq<bool>)
    requires enables != []
    ensures StallsHarmlessly([B0] + printed, enables) <==> KeepsSettings(printed, enables)
  {
    forall j | 0 <= j < |enables| {
      StallAt(printed, enables, j);
    }
    if j: nat :| j < |enables| && DoneBy(enables[..j], 1 + |printed|) {
      assert enables[..|enables| - 1][..j] == enables[..j];
      DoneStaysDone(enables[..|enables| - 1], j, 1 + |printed|);
    }
  }

  lemma FedLoads(top: Module, h: Hw, settings: seq<Setting>, printed: seq<Bit>, enables: seq<bool>)
    requires Fits(top, h) && NoStrayCells(top) && Shaped(ConfigOrder(top), settings)
    requires printed == Printed(settings) && DoneBy(enables, 1 + |printed|)
    ensures Loaded(Feed(top, h, Fed([B0] + printed, enables)), settings) <==> KeepsSettings(printed, enables)
  {
    OnTape([B0] + printed, enables);
    DoneLoads(top, h, settings, [B0] + printed, enables);
    StallsOfInputs(printed, enables);
  }

  lemma RunLoads(top: Module, h: Hw, settings: seq<Setting>, printed: seq<Bit>, pulses: seq<Pulse>)
    requires Fits(top, h) && NoStrayCells(top) && Shaped(ConfigOrder(top), settings)
    requires printed == Printed(settings) && DoneBy(Enables(pulses), 1 + |printed|)
    ensures Loaded(Run(top, h, [B0] + printed, pulses).1, settings) <==> KeepsSettings(printed, Enables(pulses))
  {
    RunFeeds(top, h, [B0] + printed, pulses);
    FedLoads(top, h, settings, printed, Enables(pulses));
  }

  lemma RunIsDone(top: Module, h: Hw, storage: seq<Bit>, pulses: seq<Pulse>)
    requires Fits(top, h)
    ensures Run(top, h, storage, pulses).0.done <==> DoneBy(Enables(pulses), |storage|)
  {
    RunFeeds(top, h, storage, pulses);
    OnTape(storage, Enables(pulses));
  }

  /** Main result, for every pattern of clocks and enables. The configurator is done once a
      clock has found all its bits put out, and the chain is then loaded
      exactly when the enable input and the last clock were as KeepsSettings says. */
  lemma DoneMeansLoaded(top: Module, h: Hw, settings: seq<Setting>, pulses: seq<Pulse>)
    requires Fits(top, h) && NoStrayCells(top) && Shaped(ConfigOrder(top), settings)
    ensures var (s, g) := Run(top, h, StorageFor(top, settings), pulses);
            && (s.done <==> DoneBy(Enables(pulses), 1 + TotalSize(ConfigOrder(top), settings)))
            && (s.done ==> (Loaded(g, settings) <==> KeepsSettings(Printed(settings), Enables(pulses))))
  {
    StorageIsFilledUp(top, settings);
    RunIsDone(top, h, StorageFor(top, settings), pulses);
    if DoneBy(Enables(pulses), 1 + |Printed(settings)|) {
      RunLoads(top, h, settings, Printed(settings), pulses);
    }
  }

  lemma PromptKeeps(printed: seq<Bit>, enables: seq<bool>)
    requires |enables| == |printed| + 2 && forall j :: 0 <= j < |enables| ==> enables[j]
    ensures DoneBy(enables, 1 + |printed|) && KeepsSettings(printed, enables)
  {
    AllEnabled(enables[..|enables| - 1]);
  }

  /** The intended use: never held back, and clocked until done rises. */
  lemma PromptRunLoads(top: Module, h: Hw, settings: seq<Setting>, pulses: seq<Pulse>)
    requires Fits(top, h) && NoStrayCells(top) && Shaped(ConfigOrder(top), settings)
    requires forall j :: 0 <= j < |Enables(pulses)| ==> Enables(pulses)[j]
    requires |Enables(pulses)| == TotalSize(ConfigOrder(top), settings) + 2
    ensures var (s, g) := Run(top, h, StorageFor(top, settings), pulses);
            s.done && Loaded(g, settings)
  {
    StorageIsFilledUp(top, settings);
    DoneMeansLoaded(top, h, settings, pulses);
    PromptKeeps(Printed(settings), Enables(pulses));
  }

  lemma {:induction false} AllEnabled(enables: seq<bool>)
    requires forall j :: 0 <= j < |enables| ==> enables[j]
    ensures Enabled(enables) == |enables|
  {
    if enables != [] {
      AllEnabled(enables[..|enables| - 1]);
    }
  }

  // Two runs that end with done and a chain that is not loaded.

  function OneCell(size: nat): Module {
    Plain([Cell(0, 1, size)], [])
  }

  const ON := Pulse(true, true)
  const HELD := Pulse(true, false)

  function ZeroCell(size: nat): Hw {
    HwPlain([[seq(size, _ => B0)]], [])
  }

  lemma OneCellFits(word: seq<BitSetting>)
    requires word != []
    ensures Fits(OneCell(|word|), ZeroCell(|word|)) && NoStrayCells(OneCell(|word|))
    ensures Shaped(ConfigOrder(OneCell(|word|)), [[word]]) && Flatten([[word]]) == WordBits(word)
    ensures TotalSize(ConfigOrder(OneCell(|word|)), [[word]]) == |word|
  {
    var cell := Cell(0, 1, |word|);
    assert CellFits(cell, ZeroCell(|word|).cells[0]);
    assert ConfigOrder(OneCell(|word|)) == [cell];
    assert CellShaped(cell, [[word]][0]);
    assert [[word]][1..] == [] && [word][1..] == [];
    assert SettingBits([word]) == WordBits(word) && Flatten([[word]]) == SettingBits([word]);
    FlattenLength([cell], [[word]]);
  }

  lemma {:induction false} EnablesOf(pulses: seq<Pulse>)
    requires forall i :: 0 <= i < |pulses| ==> pulses[i].clock
    ensures |Enables(pulses)| == |pulses| && forall i :: 0 <= i < |pulses| ==> Enables(pulses)[i] == pulses[i].enable
  {
    if pulses != [] {
      EnablesOf(pulses[..|pulses| - 1]);
    }
  }

  /** One clock too many shifts the only bit out again. */
  lemma ClockedOnIsLost()
    ensures var top, settings := OneCell(1), [[[High]]];
            |ConfigOrder(top)| == |settings| && Fits(top, ZeroCell(1))
    ensures var (s, g) := Run(OneCell(1), ZeroCell(1), StorageFor(OneCell(1), [[[High]]]), [ON, ON, ON, ON]);
            s.done && !Loaded(g, [[[High]]])
  {
    OneCellFits([High]);
    var pulses := [ON, ON, ON, ON];
    EnablesOf(pulses);
    DoneMeansLoaded(OneCell(1), ZeroCell(1), [[[High]]], pulses);
    LongRun(Enables(pulses));
    var printed := Printed([[[High]]]);
    assert printed[0] == B1 && |printed| == 1;
  }

  lemma LongRun(enables: seq<bool>)
    requires |enables| == 4 && forall i :: 0 <= i < 4 ==> enables[i]
    ensures DoneBy(enables, 2) && DoneBy(enables[..3], 2)
  {
    AllEnabled(enables[..3]);
    AllEnabled(enables[..3][..2]);
  }

  /** Held back for one clock after two different bits, the configurator puts the second one out twice. */
  lemma HeldIsLost()
    ensures var top, settings := OneCell(3), [[[Low, Low, High]]];
            |ConfigOrder(top)| == |settings| && Fits(top, ZeroCell(3))
    ensures var (s, g) := Run(OneCell(3), ZeroCell(3), StorageFor(OneCell(3), [[[Low, Low, High]]]),
                              [ON, ON, ON, HELD, ON, ON]);
            s.done && !Loaded(g, [[[Low, Low, High]]])
  {
    var word := [Low, Low, High];
    OneCellFits(word);
    var pulses := [ON, ON, ON, HELD, ON, ON];
    EnablesOf(pulses);
    DoneMeansLoaded(OneCell(3), ZeroCell(3), [[word]], pulses);
    var enables := Enables(pulses);
    assert enables == [true, true, true, false, true, true];
    HeldRun();
    var printed := Printed([[word]]);
    assert printed[0] == B1 && printed[1] == B0;
    assert !enables[3] && Enabled(enables[..3]) == 3;
    assert !SameBits(printed, PutOut(3));
  }

  lemma HeldRun()
    ensures Enabled([true, true, true, false, true, true][..3]) == 3
    ensures DoneBy([true, true, true, false, true, true], 4) && !DoneBy([true, true, true, false, true, true][..5], 4)
  {
    var enables := [true, true, true, false, true, true];
    AllEnabled(enables[..3]);
    assert enables[..4][..3] == enables[..3] && enables[..5][..4] == enables[..4];
    assert Enabled(enables[..4]) == 3;
    assert Enabled(enables[..5]) == 4;
  }
}
