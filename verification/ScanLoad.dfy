// Shifting the printed bitstream through the scan chain leaves in every cell,
// context and bit the setting that is stored for it.
module ScanLoad {
  import opened ConfigChain
  import opened BitStreams

  /** What a loaded bit says of the setting that it was loaded for: a bit that does not matter is undefined. */
  ghost predicate Says(bit: Bit, setting: BitSetting) {
    && (bit == B0 <==> setting == Low)
    && (bit == B1 <==> setting == High)
    && (bit == BX <==> setting == DontCarePreferLow || setting == DontCarePreferHigh)
    && (bit == BZ <==> setting == HighImpedance)
  }

  /** The register holds the word, its j-th setting at the j-th place from the top. */
  ghost predicate WordHeld(word: seq<BitSetting>, r: seq<Bit>) {
    |r| == |word| && forall j :: 0 <= j < |word| ==> Says(r[|word| - 1 - j], word[j])
  }

  /** Every context's word is in that context's register. */
  ghost predicate CellImage(setting: Setting, r: Regs) {
    |r| == |setting| && forall i :: 0 <= i < |r| ==> WordHeld(setting[i], r[i])
  }

  lemma HeldIsPrinted(word: seq<BitSetting>, r: seq<Bit>)
    ensures WordHeld(word, r) <==> Reverse(r) == WordBits(word)
  {
    if WordHeld(word, r) {
      forall j | 0 <= j < |word|
        ensures Reverse(r)[j] == WordBits(word)[j]
      {
        assert Says(r[|word| - 1 - j], word[j]);
      }
    }
    if Reverse(r) == WordBits(word) {
      assert |r| == |Reverse(r)| == |WordBits(word)| == |word|;
      forall j | 0 <= j < |word|
        ensures Says(r[|word| - 1 - j], word[j])
      {
        assert Reverse(r)[j] == WordBits(word)[j];
      }
    }
  }

  ghost predicate Loaded(h: Hw, settings: seq<Setting>) {
    |RegsOrder(h)| == |settings| && forall k :: 0 <= k < |settings| ==> CellImage(settings[k], RegsOrder(h)[k])
  }

  ghost predicate CellShaped(c: Cell, setting: Setting) {
    |setting| == c.contexts && forall i :: 0 <= i < |setting| ==> |setting[i]| == c.size
  }

  /** Every context of every setting has the width of its cell. */
  ghost predicate Shaped(cells: seq<Cell>, settings: seq<Setting>) {
    |cells| == |settings| && forall k :: 0 <= k < |cells| ==> CellShaped(cells[k], settings[k])
  }

  lemma {:induction false} SettingLength(c: Cell, setting: Setting)
    requires forall i :: 0 <= i < |setting| ==> |setting[i]| == c.size
    ensures |SettingBits(setting)| == c.size * |setting|
  {
    if setting != [] {
      SettingLength(c, setting[1..]);
      assert c.size * |setting| == c.size + c.size * (|setting| - 1);
    }
  }

  lemma {:induction false} FlattenConcat(a: seq<Setting>, b: seq<Setting>)
    ensures Flatten(a + b) == Flatten(a) + Flatten(b)
  {
    if a == [] {
      assert a + b == b;
    } else {
      FlattenConcat(a[1..], b);
      assert (a + b)[1..] == a[1..] + b;
      var x, y, z := SettingBits(a[0]), Flatten(a[1..]), Flatten(b);
      assert x + (y + z) == (x + y) + z;
    }
  }

  lemma {:induction false} FlattenLength(cells: seq<Cell>, settings: seq<Setting>)
    requires Shaped(cells, settings)
    ensures |Flatten(settings)| == TotalSize(cells, settings)
  {
    if cells != [] {
      var k := |cells| - 1;
      FlattenLength(cells[..k], settings[..k]);
      assert settings == settings[..k] + [settings[k]];
      FlattenConcat(settings[..k], [settings[k]]);
      assert Flatten([settings[k]]) == SettingBits(settings[k]) by { assert [settings[k]][1..] == []; }
      assert CellShaped(cells[k], settings[k]);
      SettingLength(cells[k], settings[k]);
    }
  }

  lemma {:induction false} WordsLength(c: Cell, r: Regs, setting: Setting)
    requires |r| == |setting|
    requires forall i :: 0 <= i < |r| ==> |r[i]| == c.size && |setting[i]| == c.size
    ensures |Words(r)| == |SettingBits(setting)|
    ensures Words(r) == SettingBits(setting) ==> CellImage(setting, r)
  {
    if r != [] {
      WordsLength(c, r[1..], setting[1..]);
      if Words(r) == SettingBits(setting) {
        assert Reverse(r[0]) == Words(r)[..c.size] && Words(r[1..]) == Words(r)[c.size..];
        assert WordBits(setting[0]) == SettingBits(setting)[..c.size];
        assert SettingBits(setting[1..]) == SettingBits(setting)[c.size..];
        HeldIsPrinted(setting[0], r[0]);
        forall i | 0 <= i < |r|
          ensures WordHeld(setting[i], r[i])
        {
          if i > 0 {
            assert r[i] == r[1..][i - 1] && setting[i] == setting[1..][i - 1];
          }
        }
      }
    }
  }

  lemma {:induction false} SameBitsSameCells(cells: seq<Cell>, rs: seq<Regs>, settings: seq<Setting>)
    requires AllFit(cells, rs) && Shaped(cells, settings)
    ensures |AllWords(rs)| == |Flatten(settings)|
    ensures AllWords(rs) == Flatten(settings) ==>
              forall k :: 0 <= k < |rs| ==> CellImage(settings[k], rs[k])
  {
    if cells != [] {
      assert CellFits(cells[0], rs[0]) && CellShaped(cells[0], settings[0]);
      WordsLength(cells[0], rs[0], settings[0]);
      SameBitsSameCells(cells[1..], rs[1..], settings[1..]);
      if AllWords(rs) == Flatten(settings) {
        var n := |Words(rs[0])|;
        assert Words(rs[0]) == AllWords(rs)[..n] && AllWords(rs[1..]) == AllWords(rs)[n..];
        assert SettingBits(settings[0]) == Flatten(settings)[..n] && Flatten(settings[1..]) == Flatten(settings)[n..];
        forall k | 0 <= k < |rs|
          ensures CellImage(settings[k], rs[k])
        {
          if k > 0 {
            assert rs[k] == rs[1..][k - 1] && settings[k] == settings[1..][k - 1];
          }
        }
      }
    }
  }

  lemma {:induction false} ImageWords(setting: Setting, r: Regs)
    requires CellImage(setting, r)
    ensures Words(r) == SettingBits(setting)
  {
    if r != [] {
      HeldIsPrinted(setting[0], r[0]);
      forall i | 0 <= i < |r[1..]|
        ensures WordHeld(setting[1..][i], r[1..][i])
      {
        assert WordHeld(setting[i + 1], r[i + 1]);
      }
      ImageWords(setting[1..], r[1..]);
    }
  }

  lemma {:induction false} ImagesAllWords(settings: seq<Setting>, rs: seq<Regs>)
    requires |rs| == |settings| && forall k :: 0 <= k < |rs| ==> CellImage(settings[k], rs[k])
    ensures AllWords(rs) == Flatten(settings)
  {
    if rs != [] {
      ImageWords(settings[0], rs[0]);
      ImagesAllWords(settings[1..], rs[1..]);
    }
  }

  /** The cells hold their settings exactly when the flat register holds the settings' bits. */
  lemma LoadedIsFlat(top: Module, h: Hw, settings: seq<Setting>)
    requires Fits(top, h) && NoStrayCells(top) && Shaped(ConfigOrder(top), settings)
    ensures |Flat(h)| == |Flatten(settings)|
    ensures Loaded(h, settings) <==> Flat(h) == Flatten(settings)
  {
    OrderIsWiring(top);
    WiredRegs(top, h);
    SameBitsSameCells(ConfigOrder(top), RegsOrder(h), settings);
    if Loaded(h, settings) {
      ImagesAllWords(settings, RegsOrder(h));
    }
  }

  lemma ReverseTwice<T>(a: seq<T>, b: seq<T>)
    ensures Reverse(a) == b <==> a == Reverse(b)
  {
    assert Reverse(Reverse(a)) == a;
    assert Reverse(Reverse(b)) == b;
  }

  /** A stream that is long enough loads the settings exactly when it ends in the printed bits. */
  lemma LoadedByLastBits(top: Module, h: Hw, prefix: seq<Bit>, bits: seq<Bit>, settings: seq<Setting>)
    requires Fits(top, h) && NoStrayCells(top) && Shaped(ConfigOrder(top), settings)
    requires |bits| == |Flatten(settings)|
    ensures Loaded(Feed(top, h, prefix + bits), settings) <==> bits == Reverse(Flatten(settings))
  {
    LoadedIsFlat(top, h, settings);
    LoadedIsFlat(top, Feed(top, h, prefix + bits), settings);
    LongStreamFills(top, h, prefix, bits);
    ReverseTwice(bits, Flatten(settings));
  }

  /** Main result: whatever was shifted in before, the printed bits load every
      cell of the hierarchy with its setting, exactly when the settings have
      the widths of their cells. */
  lemma LoadIsCorrect(top: Module, h: Hw, prefix: seq<Bit>, settings: seq<Setting>)
    requires Fits(top, h) && NoStrayCells(top)
    requires |settings| == |ConfigOrder(top)|
    requires forall k :: 0 <= k < |settings| ==> |settings[k]| == ConfigOrder(top)[k].contexts
    ensures Loaded(Feed(top, h, prefix + Reverse(Flatten(settings))), settings) <==> Shaped(ConfigOrder(top), settings)
  {
    var bits := Reverse(Flatten(settings));
    var h' := Feed(top, h, prefix + bits);
    OrderIsWiring(top);
    WiredRegs(top, h);
    WiredRegs(top, h');
    var cells := ConfigOrder(top);
    if Shaped(cells, settings) {
      SameBitsSameCells(cells, RegsOrder(h), settings);
      SameBitsSameCells(cells, RegsOrder(h'), settings);
      LongStreamFills(top, h, prefix, bits);
      assert Reverse(bits) == Flatten(settings);
    }
    if Loaded(h', settings) {
      forall k | 0 <= k < |cells|
        ensures CellShaped(cells[k], settings[k])
      {
        LoadedIsShaped(cells[k], RegsOrder(h')[k], settings[k]);
      }
    }
  }

  lemma LoadedIsShaped(c: Cell, r: Regs, setting: Setting)
    requires CellFits(c, r) && CellImage(setting, r)
    ensures CellShaped(c, setting)
  {
    forall i | 0 <= i < |setting|
      ensures |setting[i]| == c.size
    {
      assert WordHeld(setting[i], r[i]);
    }
  }

  /** What genBitStream should check: every context in use has the right width. */
  ghost predicate WidthsRight(cells: seq<Cell>, produce: Cell -> Setting, ii: nat) {
    forall c :: c in cells ==>
      && (|produce(c)| >= ii || |produce(c)| >= c.contexts)
      && forall cycle :: 0 <= cycle < c.contexts && cycle < ii ==> |produce(c)[cycle]| == c.size
  }

  lemma PaddedShape(cells: seq<Cell>, produce: Cell -> Setting, ii: nat)
    requires forall c :: c in cells ==> |produce(c)| >= ii || |produce(c)| >= c.contexts
    ensures Shaped(cells, AllPadded(cells, produce, ii)) <==> WidthsRight(cells, produce, ii)
  {
    var settings := AllPadded(cells, produce, ii);
    forall k | 0 <= k < |cells|
      ensures CellShaped(cells[k], settings[k]) <==>
              forall cycle :: 0 <= cycle < cells[k].contexts && cycle < ii ==> |produce(cells[k])[cycle]| == cells[k].size
    {
      var c := cells[k];
      var padded := Padded(c, produce(c), ii);
      assert settings[k] == padded;
      forall cycle | 0 <= cycle < c.contexts
        ensures |padded[cycle]| == c.size <==> (cycle < ii ==> |produce(c)[cycle]| == c.size)
      {
        assert padded[cycle] == if cycle < ii then produce(c)[cycle] else LowWord(c.size);
      }
    }
    if Shaped(cells, settings) {
      forall c | c in cells
        ensures forall cycle :: 0 <= cycle < c.contexts && cycle < ii ==> |produce(c)[cycle]| == c.size
      {
        var k :| 0 <= k < |cells| && cells[k] == c;
        assert CellShaped(cells[k], settings[k]);
      }
    }
  }

  /** The generated bitstream loads correctly exactly when all used contexts
      have the right width, of which genBitStream checks the first. */
  lemma GeneratedBitStreamLoads(top: Module, h: Hw, prefix: seq<Bit>, produce: Cell -> Setting, ii: nat)
    requires Fits(top, h) && NoStrayCells(top)
    requires forall c :: c in ConfigOrder(top) ==> |produce(c)| >= ii || |produce(c)| >= c.contexts
    ensures var settings := AllPadded(ConfigOrder(top), produce, ii);
            Loaded(Feed(top, h, prefix + Reverse(Flatten(settings))), settings) <==> WidthsRight(ConfigOrder(top), produce, ii)
  {
    LoadIsCorrect(top, h, prefix, AllPadded(ConfigOrder(top), produce, ii));
    PaddedShape(ConfigOrder(top), produce, ii);
  }

  /** The cell holds the words that were produced for the contexts in use, and zeros in all others. */
  ghost predicate Configured(c: Cell, produced: Setting, ii: nat, r: Regs) {
    && |r| == c.contexts
    && forall i :: 0 <= i < c.contexts ==>
         && |r[i]| == c.size
         && if i < ii then i < |produced| && WordHeld(produced[i], r[i]) else forall j :: 0 <= j < c.size ==> r[i][j] == B0
  }

  ghost predicate AllConfigured(top: Module, produce: Cell -> Setting, ii: nat, h: Hw) {
    var cells, rs := ConfigOrder(top), RegsOrder(h);
    |rs| == |cells| && forall k :: 0 <= k < |cells| ==> Configured(cells[k], produce(cells[k]), ii, rs[k])
  }

  lemma PaddedConfigures(c: Cell, produced: Setting, ii: nat, r: Regs)
    requires |produced| >= ii || |produced| >= c.contexts
    requires CellFits(c, r) && CellImage(Padded(c, produced, ii), r)
    ensures Configured(c, produced, ii, r)
  {
    forall i | ii <= i < c.contexts
      ensures forall j :: 0 <= j < c.size ==> r[i][j] == B0
    {
      var low := LowWord(c.size);
      assert low == Padded(c, produced, ii)[i];
      assert WordHeld(low, r[i]);
      forall j | 0 <= j < c.size
        ensures r[i][j] == B0
      {
        assert Says(r[i][|low| - 1 - (c.size - 1 - j)], low[c.size - 1 - j]);
      }
    }
    forall i | 0 <= i < c.contexts && i < ii
      ensures WordHeld(produced[i], r[i])
    {
      assert WordHeld(Padded(c, produced, ii)[i], r[i]);
    }
  }

  lemma LoadedIsConfigured(top: Module, h: Hw, produce: Cell -> Setting, ii: nat)
    requires Fits(top, h) && NoStrayCells(top)
    requires forall c :: c in ConfigOrder(top) ==> |produce(c)| >= ii || |produce(c)| >= c.contexts
    requires Loaded(h, AllPadded(ConfigOrder(top), produce, ii))
    ensures AllConfigured(top, produce, ii, h)
  {
    var cells := ConfigOrder(top);
    OrderIsWiring(top);
    WiredRegs(top, h);
    forall k | 0 <= k < |cells| {
      PaddedConfigures(cells[k], produce(cells[k]), ii, RegsOrder(h)[k]);
    }
  }

  /** Main result: with all widths right, the generated bitstream leaves in every cell, for each context in
      use, the bits that its module produced, and zeros in the contexts that are not in use. */
  lemma GeneratedBitStreamConfigures(top: Module, h: Hw, prefix: seq<Bit>, produce: Cell -> Setting, ii: nat)
    requires Fits(top, h) && NoStrayCells(top) && WidthsRight(ConfigOrder(top), produce, ii)
    ensures AllConfigured(top, produce, ii,
                          Feed(top, h, prefix + Reverse(Flatten(AllPadded(ConfigOrder(top), produce, ii)))))
  {
    var bits := Reverse(Flatten(AllPadded(ConfigOrder(top), produce, ii)));
    GeneratedBitStreamLoads(top, h, prefix, produce, ii);
    LoadedIsConfigured(top, Feed(top, h, prefix + bits), produce, ii);
  }

  /** Where the chain is longer than the list of cells, as it is with a cell that is wired but not listed, the
      printed bits fill the front of the chain, and what was there before moves on. */
  lemma BitsFillTheFront(top: Module, h: Hw, prefix: seq<Bit>, settings: seq<Setting>)
    requires Fits(top, h) && |Flatten(settings)| <= |Flat(h)|
    ensures |Flat(Feed(top, h, prefix))| == |Flat(h)|
    ensures Flat(Feed(top, h, prefix + Reverse(Flatten(settings)))) ==
            Flatten(settings) + Flat(Feed(top, h, prefix))[..|Flat(h)| - |Flatten(settings)|]
  {
    var settingBits, bits := Flatten(settings), Reverse(Flatten(settings));
    FeedIsFlat(top, h, prefix);
    FeedIsFlat(top, h, prefix + bits);
    FeedFlatIs(Flat(h), prefix);
    FeedFlatIs(Flat(h), prefix + bits);
    ReverseConcat(prefix, bits);
    ReverseTwice(bits, settingBits);
    FrontOf(settingBits, Reverse(prefix), Flat(h));
  }

  lemma FrontOf(a: seq<Bit>, b: seq<Bit>, flat: seq<Bit>)
    requires |a| <= |flat|
    ensures ((a + b) + flat)[..|flat|] == a + ((b + flat)[..|flat|])[..|flat| - |a|]
  {
    assert (a + b) + flat == a + (b + flat);
  }

  // A cell of two contexts of one bit, and a module that gives the second no bit.
  const NARROW := Cell(0, 2, 1)

  function ShortSecondContext(c: Cell): Setting {
    [[High], []]
  }

  /** A bitstream that passes genBitStream's width check and still does not load. */
  lemma WidthCheckMissesLaterContexts(prefix: seq<Bit>)
    ensures var top, h := Plain([NARROW], []), HwPlain([[[B0], [B0]]], []);
            var settings := AllPadded(ConfigOrder(top), ShortSecondContext, 2);
            && ConfigOrder(top) == [NARROW] && |ShortSecondContext(NARROW)[0]| == NARROW.size
            && Fits(top, h) && NoStrayCells(top)
            && !Loaded(Feed(top, h, prefix + Reverse(Flatten(settings))), settings)
  {
    var top, h := Plain([NARROW], []), HwPlain([[[B0], [B0]]], []);
    assert ConfigOrder(top) == [NARROW];
    assert CellFits(NARROW, h.cells[0]);
    GeneratedBitStreamLoads(top, h, prefix, ShortSecondContext, 2);
    assert |ShortSecondContext(NARROW)[1]| != NARROW.size;
    assert NARROW in ConfigOrder(top);
  }
}
