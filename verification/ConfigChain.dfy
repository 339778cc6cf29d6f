// The configuration scan chain that a module tree is compiled to, and the
// order in which the tool believes its cells are chained.
module ConfigChain {
  // Verilog's four-valued bits.
  datatype Bit = B0 | B1 | BX | BZ

  // A configuration cell: for each context one word of the given size.
  datatype Cell = Cell(id: nat, contexts: nat, size: nat)

  // A module has its own cells and its submodules, both in the order of their
  // names. A configuration cell is itself a module, and so could also be
  // added as a submodule.
  datatype Module =
    | Plain(cells: seq<Cell>, subs: seq<Module>)
    | CellAsSubmodule(cell: Cell)

  /** genConfigOrder, as a function. */
  function ConfigOrder(m: Module): seq<Cell>
    decreases m, 1
  {
    match m
    case Plain(cells, subs) => cells + ConfigOrderAll(subs)
    case CellAsSubmodule(_) => []
  }

  function ConfigOrderAll(ms: seq<Module>): seq<Cell>
    decreases ms, 0
  {
    if ms == [] then [] else ConfigOrder(ms[0]) + ConfigOrderAll(ms[1..])
  }

  method GenConfigOrder(m: Module, table: seq<Cell>) returns (table': seq<Cell>)
    ensures table' == table + ConfigOrder(m)
    decreases m
  {
    table' := table;
    if m.Plain? {
      for i := 0 to |m.cells|
        invariant table' == table + m.cells[..i]
      {
        table' := table' + [m.cells[i]];
      }
      assert m.cells[..|m.cells|] == m.cells;
      for i := 0 to |m.subs|
        invariant table' + ConfigOrderAll(m.subs[i..]) == table + m.cells + ConfigOrderAll(m.subs)
      {
        table' := GenConfigOrder(m.subs[i], table');
        assert m.subs[i..][1..] == m.subs[i + 1..];
      }
      assert m.subs[|m.subs|..] == [];
      assert table + m.cells + ConfigOrderAll(m.subs) == table + ConfigOrder(m);
    }
  }

  /** moduleRequiresConfigPorts: which submodules join the chain. */
  predicate RequiresConfigPorts(m: Module)
    decreases m, 1
  {
    match m
    case Plain(cells, subs) => cells != [] || AnyRequires(subs)
    case CellAsSubmodule(_) => true
  }

  predicate AnyRequires(ms: seq<Module>)
    decreases ms, 0
  {
    ms != [] && (RequiresConfigPorts(ms[0]) || AnyRequires(ms[1..]))
  }

  // The registers of one cell: by context, and within a context by bit number,
  // least significant first.
  type Regs = seq<seq<Bit>>

  // The registers of a whole module tree.
  datatype Hw = HwPlain(cells: seq<Regs>, subs: seq<Hw>) | HwCell(regs: Regs)

  ghost predicate CellFits(c: Cell, r: Regs) {
    c.contexts > 0 && c.size > 0 && |r| == c.contexts && forall i :: 0 <= i < |r| ==> |r[i]| == c.size
  }

  ghost predicate Fits(m: Module, h: Hw)
    decreases m, 1
  {
    match m
    case Plain(cells, subs) =>
      && h.HwPlain? && |h.cells| == |cells|
      && (forall i :: 0 <= i < |cells| ==> CellFits(cells[i], h.cells[i]))
      && FitsAll(subs, h.subs)
    case CellAsSubmodule(c) => h.HwCell? && CellFits(c, h.regs)
  }

  ghost predicate FitsAll(ms: seq<Module>, hs: seq<Hw>)
    decreases ms, 0
  {
    |ms| == |hs| && (ms != [] ==> Fits(ms[0], hs[0]) && FitsAll(ms[1..], hs[1..]))
  }

  // One tick of the configuration clock.

  /** The bit that enters context i: from the chain, or out of the context before. */
  function ShiftIn(r: Regs, input: Bit, i: nat): Bit
    requires i < |r| && forall k :: 0 <= k < |r| ==> |r[k]| > 0
  {
    if i == 0 then input else r[i - 1][0]
  }

  /** All words shift right at once; the entering bit becomes the top one. */
  function CellTick(r: Regs, input: Bit): Regs
    requires forall k :: 0 <= k < |r| ==> |r[k]| > 0
  {
    seq(|r|, i requires 0 <= i < |r| => r[i][1..] + [ShiftIn(r, input, i)])
  }

  function CellOut(r: Regs): Bit
    requires |r| > 0 && |r[|r| - 1]| > 0
  {
    r[|r| - 1][0]
  }

  function CellsTick(cells: seq<Cell>, rs: seq<Regs>, input: Bit): seq<Regs>
    requires |rs| == |cells| && forall i :: 0 <= i < |cells| ==> CellFits(cells[i], rs[i])
  {
    if cells == [] then []
    else
      assert CellFits(cells[0], rs[0]);
      [CellTick(rs[0], input)] + CellsTick(cells[1..], rs[1..], CellOut(rs[0]))
  }

  /** PreviousWire after the last of the cells. */
  function CellsOut(cells: seq<Cell>, rs: seq<Regs>, input: Bit): Bit
    requires |rs| == |cells| && forall i :: 0 <= i < |cells| ==> CellFits(cells[i], rs[i])
  {
    if cells == [] then input
    else
      assert CellFits(cells[0], rs[0]);
      CellsOut(cells[1..], rs[1..], CellOut(rs[0]))
  }

  function Tick(m: Module, h: Hw, input: Bit): Hw
    requires Fits(m, h)
    decreases m, 1
  {
    match m
    case Plain(cells, subs) =>
      HwPlain(CellsTick(cells, h.cells, input), SubsTick(subs, h.subs, CellsOut(cells, h.cells, input)))
    case CellAsSubmodule(c) => HwCell(CellTick(h.regs, input))
  }

  function SubsTick(ms: seq<Module>, hs: seq<Hw>, input: Bit): seq<Hw>
    requires FitsAll(ms, hs)
    decreases ms, 0
  {
    if ms == [] then []
    else if RequiresConfigPorts(ms[0]) then
      [Tick(ms[0], hs[0], input)] + SubsTick(ms[1..], hs[1..], Out(ms[0], hs[0], input))
    else [hs[0]] + SubsTick(ms[1..], hs[1..], input)
  }

  /** The module's ConfigOut wire, before the tick. */
  function Out(m: Module, h: Hw, input: Bit): Bit
    requires Fits(m, h)
    decreases m, 1
  {
    match m
    case Plain(cells, subs) => SubsOut(subs, h.subs, CellsOut(cells, h.cells, input))
    case CellAsSubmodule(c) => CellOut(h.regs)
  }

  function SubsOut(ms: seq<Module>, hs: seq<Hw>, input: Bit): Bit
    requires FitsAll(ms, hs)
    decreases ms, 0
  {
    if ms == [] then input
    else SubsOut(ms[1..], hs[1..], if RequiresConfigPorts(ms[0]) then Out(ms[0], hs[0], input) else input)
  }

  // The chain as one flat shift register, the bit next to ConfigIn first.

  function Reverse<T>(s: seq<T>): (r: seq<T>)
    ensures |r| == |s|
    ensures forall i :: 0 <= i < |s| ==> r[i] == s[|s| - 1 - i]
  {
    if s == [] then [] else Reverse(s[1..]) + [s[0]]
  }

  function Words(r: Regs): seq<Bit> {
    if r == [] then [] else Reverse(r[0]) + Words(r[1..])
  }

  function AllWords(rs: seq<Regs>): seq<Bit> {
    if rs == [] then [] else Words(rs[0]) + AllWords(rs[1..])
  }

  function Flat(h: Hw): seq<Bit>
    decreases h, 1
  {
    match h
    case HwPlain(cells, subs) => AllWords(cells) + FlatAll(subs)
    case HwCell(r) => Words(r)
  }

  function FlatAll(hs: seq<Hw>): seq<Bit>
    decreases hs, 0
  {
    if hs == [] then [] else Flat(hs[0]) + FlatAll(hs[1..])
  }

  function Shift(flat: seq<Bit>, input: Bit): seq<Bit> {
    ([input] + flat)[..|flat|]
  }

  function ShiftedOut(flat: seq<Bit>, input: Bit): Bit {
    ([input] + flat)[|flat|]
  }

  lemma ShiftConcat(a: seq<Bit>, b: seq<Bit>, input: Bit)
    ensures Shift(a + b, input) == Shift(a, input) + Shift(b, ShiftedOut(a, input))
    ensures ShiftedOut(a + b, input) == ShiftedOut(b, ShiftedOut(a, input))
  {
    assert [input] + (a + b) == ([input] + a) + b;
  }

  lemma {:induction false} ReverseConcat<T>(a: seq<T>, b: seq<T>)
    ensures Reverse(a + b) == Reverse(b) + Reverse(a)
  {
    if a == [] {
      assert a + b == b;
    } else {
      ReverseConcat(a[1..], b);
      assert (a + b)[1..] == a[1..] + b;
    }
  }

  lemma ShiftSnoc(tail: seq<Bit>, last: Bit, input: Bit)
    ensures Shift(tail + [last], input) == [input] + tail
    ensures ShiftedOut(tail + [last], input) == last
  {
  }

  lemma ReverseSingle<T>(x: T)
    ensures Reverse([x]) == [x]
  {
  }

  lemma WordShift(word: seq<Bit>, input: Bit)
    requires |word| > 0
    ensures Reverse(word[1..] + [input]) == Shift(Reverse(word), input)
    ensures ShiftedOut(Reverse(word), input) == word[0]
  {
    ShiftSnoc(Reverse(word[1..]), word[0], input);
    ReverseConcat(word[1..], [input]);
    ReverseSingle(input);
  }

  lemma {:induction false} CellShifts(r: Regs, input: Bit)
    requires |r| > 0 && forall k :: 0 <= k < |r| ==> |r[k]| > 0
    ensures Words(CellTick(r, input)) == Shift(Words(r), input)
    ensures CellOut(r) == ShiftedOut(Words(r), input)
  {
    WordShift(r[0], input);
    if |r| > 1 {
      CellShifts(r[1..], r[0][0]);
      assert CellTick(r, input)[1..] == CellTick(r[1..], r[0][0]) by {
        forall i | 0 <= i < |r| - 1
          ensures CellTick(r, input)[1..][i] == CellTick(r[1..], r[0][0])[i]
        {
        }
      }
      ShiftConcat(Reverse(r[0]), Words(r[1..]), input);
    } else {
      assert Words(r[1..]) == [];
      assert Words(r) == Reverse(r[0]);
      assert CellTick(r, input)[1..] == [];
      assert Words(CellTick(r, input)) == Reverse(CellTick(r, input)[0]);
    }
  }

  lemma {:induction false} CellsShift(cells: seq<Cell>, rs: seq<Regs>, input: Bit)
    requires |rs| == |cells| && forall i :: 0 <= i < |cells| ==> CellFits(cells[i], rs[i])
    ensures AllWords(CellsTick(cells, rs, input)) == Shift(AllWords(rs), input)
    ensures CellsOut(cells, rs, input) == ShiftedOut(AllWords(rs), input)
  {
    if cells != [] {
      assert CellFits(cells[0], rs[0]);
      CellShifts(rs[0], input);
      CellsShift(cells[1..], rs[1..], CellOut(rs[0]));
      ShiftConcat(Words(rs[0]), AllWords(rs[1..]), input);
      var ticked := CellsTick(cells, rs, input);
      assert ticked[1..] == CellsTick(cells[1..], rs[1..], CellOut(rs[0]));
    }
  }

  /** A module that is left out of the chain has nothing in it to chain. */
  lemma {:induction false} UnchainedIsEmpty(m: Module, h: Hw)
    requires Fits(m, h) && !RequiresConfigPorts(m)
    ensures Flat(h) == []
    decreases m, 1
  {
    UnchainedAreEmpty(m.subs, h.subs);
  }

  lemma {:induction false} UnchainedAreEmpty(ms: seq<Module>, hs: seq<Hw>)
    requires FitsAll(ms, hs) && !AnyRequires(ms)
    ensures FlatAll(hs) == []
    decreases ms, 0
  {
    if ms != [] {
      UnchainedIsEmpty(ms[0], hs[0]);
      UnchainedAreEmpty(ms[1..], hs[1..]);
    }
  }

  /** Main result: however deep the hierarchy, one clock tick shifts the
      concatenation of all its cells by one bit. */
  lemma {:induction false} ChainIsShiftRegister(m: Module, h: Hw, input: Bit)
    requires Fits(m, h)
    ensures Flat(Tick(m, h, input)) == Shift(Flat(h), input)
    ensures Out(m, h, input) == ShiftedOut(Flat(h), input)
    decreases m, 1
  {
    match m
    case Plain(cells, subs) =>
      CellsShift(cells, h.cells, input);
      SubsShift(subs, h.subs, CellsOut(cells, h.cells, input));
      ShiftConcat(AllWords(h.cells), FlatAll(h.subs), input);
    case CellAsSubmodule(c) =>
      CellShifts(h.regs, input);
  }

  lemma {:induction false} SubsShift(ms: seq<Module>, hs: seq<Hw>, input: Bit)
    requires FitsAll(ms, hs)
    ensures FlatAll(SubsTick(ms, hs, input)) == Shift(FlatAll(hs), input)
    ensures SubsOut(ms, hs, input) == ShiftedOut(FlatAll(hs), input)
    decreases ms, 0
  {
    if ms != [] {
      var next := if RequiresConfigPorts(ms[0]) then Out(ms[0], hs[0], input) else input;
      if RequiresConfigPorts(ms[0]) {
        ChainIsShiftRegister(ms[0], hs[0], input);
      } else {
        UnchainedIsEmpty(ms[0], hs[0]);
      }
      SubsShift(ms[1..], hs[1..], next);
      ShiftConcat(Flat(hs[0]), FlatAll(hs[1..]), input);
      assert SubsTick(ms, hs, input)[1..] == SubsTick(ms[1..], hs[1..], next);
    }
  }

  lemma {:induction false} TickFits(m: Module, h: Hw, input: Bit)
    requires Fits(m, h)
    ensures Fits(m, Tick(m, h, input))
    decreases m, 1
  {
    match m
    case Plain(cells, subs) =>
      CellsTickFit(cells, h.cells, input);
      SubsTickFit(subs, h.subs, CellsOut(cells, h.cells, input));
    case CellAsSubmodule(c) =>
  }

  lemma {:induction false} CellsTickFit(cells: seq<Cell>, rs: seq<Regs>, input: Bit)
    requires |rs| == |cells| && forall i :: 0 <= i < |cells| ==> CellFits(cells[i], rs[i])
    ensures var ticked := CellsTick(cells, rs, input);
            |ticked| == |cells| && forall i :: 0 <= i < |cells| ==> CellFits(cells[i], ticked[i])
  {
    if cells != [] {
      CellsTickFit(cells[1..], rs[1..], CellOut(rs[0]));
      var rest := CellsTick(cells[1..], rs[1..], CellOut(rs[0]));
      forall i | 0 <= i < |cells|
        ensures CellFits(cells[i], CellsTick(cells, rs, input)[i])
      {
        if i > 0 {
          assert CellFits(cells[1..][i - 1], rest[i - 1]);
        }
      }
    }
  }

  lemma {:induction false} SubsTickFit(ms: seq<Module>, hs: seq<Hw>, input: Bit)
    requires FitsAll(ms, hs)
    ensures FitsAll(ms, SubsTick(ms, hs, input))
    decreases ms, 0
  {
    if ms != [] {
      var next := if RequiresConfigPorts(ms[0]) then Out(ms[0], hs[0], input) else input;
      TickFits(ms[0], hs[0], input);
      SubsTickFit(ms[1..], hs[1..], next);
      assert SubsTick(ms, hs, input)[1..] == SubsTick(ms[1..], hs[1..], next);
    }
  }

  /** The chain after a whole stream of bits. */
  function Feed(m: Module, h: Hw, bits: seq<Bit>): (h': Hw)
    requires Fits(m, h)
    ensures Fits(m, h')
    decreases |bits|
  {
    if bits == [] then h
    else
      TickFits(m, h, bits[0]);
      Feed(m, Tick(m, h, bits[0]), bits[1..])
  }

  function FeedFlat(flat: seq<Bit>, bits: seq<Bit>): (r: seq<Bit>)
    ensures |r| == |flat|
    decreases |bits|
  {
    if bits == [] then flat else FeedFlat(Shift(flat, bits[0]), bits[1..])
  }

  lemma {:induction false} FeedIsFlat(m: Module, h: Hw, bits: seq<Bit>)
    requires Fits(m, h)
    ensures Flat(Feed(m, h, bits)) == FeedFlat(Flat(h), bits)
    decreases |bits|
  {
    if bits != [] {
      TickFits(m, h, bits[0]);
      ChainIsShiftRegister(m, h, bits[0]);
      FeedIsFlat(m, Tick(m, h, bits[0]), bits[1..]);
    }
  }

  /** What a shift register holds: the stream backwards, then what was there before. */
  lemma {:induction false} FeedFlatIs(flat: seq<Bit>, bits: seq<Bit>)
    ensures FeedFlat(flat, bits) == (Reverse(bits) + flat)[..|flat|]
    decreases |bits|
  {
    if bits == [] {
      assert Reverse(bits) + flat == flat;
    } else {
      var next := Shift(flat, bits[0]);
      FeedFlatIs(next, bits[1..]);
      assert Reverse(bits) + flat == Reverse(bits[1..]) + ([bits[0]] + flat);
      assert (Reverse(bits[1..]) + next)[..|flat|] == (Reverse(bits[1..]) + ([bits[0]] + flat))[..|flat|];
    }
  }

  /** Whatever was shifted before, the last bits of a stream that is long
      enough fill the whole chain. */
  lemma LongStreamFills(m: Module, h: Hw, prefix: seq<Bit>, bits: seq<Bit>)
    requires Fits(m, h) && |bits| == |Flat(h)|
    ensures Flat(Feed(m, h, prefix + bits)) == Reverse(bits)
  {
    FeedIsFlat(m, h, prefix + bits);
    FeedFlatIs(Flat(h), prefix + bits);
    assert Reverse(prefix + bits)[..|bits|] == Reverse(bits);
  }

  // Where the tool's order and the wiring agree.

  /** The cells in the order in which the wiring chains them. */
  function WiredOrder(m: Module): seq<Cell>
    decreases m, 1
  {
    match m
    case Plain(cells, subs) => cells + WiredOrderAll(subs)
    case CellAsSubmodule(c) => [c]
  }

  function WiredOrderAll(ms: seq<Module>): seq<Cell>
    decreases ms, 0
  {
    if ms == [] then [] else WiredOrder(ms[0]) + WiredOrderAll(ms[1..])
  }

  predicate NoStrayCells(m: Module)
    decreases m, 1
  {
    m.Plain? && NoneStray(m.subs)
  }

  predicate NoneStray(ms: seq<Module>)
    decreases ms, 0
  {
    ms == [] || (NoStrayCells(ms[0]) && NoneStray(ms[1..]))
  }

  /** genConfigOrder lists the cells as they are wired exactly when no cell
      was added as a submodule: such a cell is wired but not listed. */
  lemma {:induction false} OrderIsWiring(m: Module)
    ensures |ConfigOrder(m)| <= |WiredOrder(m)|
    ensures ConfigOrder(m) == WiredOrder(m) <==> NoStrayCells(m)
    ensures |ConfigOrder(m)| == |WiredOrder(m)| <==> NoStrayCells(m)
    decreases m, 1
  {
    if m.Plain? {
      OrdersAreWiring(m.subs);
    }
  }

  lemma {:induction false} OrdersAreWiring(ms: seq<Module>)
    ensures |ConfigOrderAll(ms)| <= |WiredOrderAll(ms)|
    ensures ConfigOrderAll(ms) == WiredOrderAll(ms) <==> NoneStray(ms)
    ensures |ConfigOrderAll(ms)| == |WiredOrderAll(ms)| <==> NoneStray(ms)
    decreases ms, 0
  {
    if ms != [] {
      OrderIsWiring(ms[0]);
      OrdersAreWiring(ms[1..]);
    }
  }

  /** The registers of all cells in the order in which they are chained. */
  function RegsOrder(h: Hw): seq<Regs>
    decreases h, 1
  {
    match h
    case HwPlain(cells, subs) => cells + RegsOrderAll(subs)
    case HwCell(r) => [r]
  }

  function RegsOrderAll(hs: seq<Hw>): seq<Regs>
    decreases hs, 0
  {
    if hs == [] then [] else RegsOrder(hs[0]) + RegsOrderAll(hs[1..])
  }

  ghost predicate AllFit(cells: seq<Cell>, rs: seq<Regs>) {
    |rs| == |cells| && forall i :: 0 <= i < |cells| ==> CellFits(cells[i], rs[i])
  }

  lemma {:induction false} AllWordsConcat(a: seq<Regs>, b: seq<Regs>)
    ensures AllWords(a + b) == AllWords(a) + AllWords(b)
  {
    if a == [] {
      assert a + b == b;
    } else {
      AllWordsConcat(a[1..], b);
      assert (a + b)[1..] == a[1..] + b;
      var x, y, z := Words(a[0]), AllWords(a[1..]), AllWords(b);
      assert x + (y + z) == (x + y) + z;
    }
  }

  /** The flat register is the wired cells' words, end to end. */
  lemma {:induction false} WiredRegs(m: Module, h: Hw)
    requires Fits(m, h)
    ensures AllFit(WiredOrder(m), RegsOrder(h))
    ensures Flat(h) == AllWords(RegsOrder(h))
    decreases m, 1
  {
    match m
    case Plain(cells, subs) =>
      WiredRegsAll(subs, h.subs);
      AllWordsConcat(h.cells, RegsOrderAll(h.subs));
    case CellAsSubmodule(c) =>
      assert [h.regs][1..] == [];
      assert AllWords([h.regs]) == Words(h.regs) + AllWords([]);
  }

  lemma {:induction false} WiredRegsAll(ms: seq<Module>, hs: seq<Hw>)
    requires FitsAll(ms, hs)
    ensures AllFit(WiredOrderAll(ms), RegsOrderAll(hs))
    ensures FlatAll(hs) == AllWords(RegsOrderAll(hs))
    decreases ms, 0
  {
    if ms != [] {
      WiredRegs(ms[0], hs[0]);
      WiredRegsAll(ms[1..], hs[1..]);
      AllWordsConcat(RegsOrder(hs[0]), RegsOrderAll(hs[1..]));
    }
  }

  lemma {:induction false} FeedSnoc(m: Module, h: Hw, bits: seq<Bit>, b: Bit)
    requires Fits(m, h)
    ensures Fits(m, Feed(m, h, bits)) && Feed(m, h, bits + [b]) == Tick(m, Feed(m, h, bits), b)
    decreases |bits|
  {
    TickFits(m, h, (bits + [b])[0]);
    if bits == [] {
      assert ([b])[1..] == [] && bits + [b] == [b];
    } else {
      FeedSnoc(m, Tick(m, h, bits[0]), bits[1..], b);
      assert (bits + [b])[1..] == bits[1..] + [b];
    }
  }
}
