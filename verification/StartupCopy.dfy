/** The startup code's copy of .data from flash to SRAM, and what it does after the loader did it already. */
module StartupCopy {
  import opened Bits
  import opened Decoder
  import opened Machine
  import opened MemoryLaws
  import ImageLaws
  import Loader
  import LoaderLaws

  /** LPM Rd,Z+ followed by ST X+,Rd. */
  function CopyOnce(m: State, d: Reg): State {
    Execute(Execute(m, Data(Lpm(d, true))), Data(St(X, d, 1)))
  }

  function CopyTimes(m: State, d: Reg, n: nat): State
    decreases n
  {
    if n == 0 then m else CopyTimes(CopyOnce(m, d), d, n - 1)
  }

  /** n bytes are left in flash behind Z and plain SRAM lies at the n addresses from X. */
  ghost predicate CanCopy(m: State, d: Reg, n: nat) {
    && d !in {X as int, X + 1, Z as int, Z + 1}
    && PairValue(m, Z) + n <= FLASH_SIZE && PairValue(m, X) + n <= SRAM_SIZE
    && forall a: Word :: PairValue(m, X) <= a < PairValue(m, X) + n ==> Plain(a)
  }

  lemma LoadStep(m: State, d: Reg)
    requires d !in {X as int, X + 1, Z as int, Z + 1} && PairValue(m, Z) < FLASH_SIZE
    ensures
      var m', z := Execute(m, Data(Lpm(d, true))), PairValue(m, Z);
      && m' == m.(r := m'.r) && m'.r[d] == m.flash[z]
      && PairValue(m', Z) == z + 1 && PairValue(m', X) == PairValue(m, X)
      && (forall k: Reg :: k !in {d, Z as int, Z + 1} ==> m'.r[k] == m.r[k])
  {
    hide ReadData, WriteData;
  }

  lemma StoreStep(m: State, d: Reg)
    requires d !in {X as int, X + 1} && Plain(PairValue(m, X))
    ensures
      var m', x := Execute(m, Data(St(X, d, 1))), PairValue(m, X);
      && m' == m.(r := m'.r, sram := m.sram[x := m.r[d]])
      && PairValue(m', X) == x + 1 && PairValue(m', Z) == PairValue(m, Z)
      && (forall k: Reg :: k !in {X as int, X + 1} ==> m'.r[k] == m.r[k])
  {
    hide ReadData, WriteData, TimerAlias, UartOffset;
    PlainIsSram(m, PairValue(m, X), m.r[d]);
  }

  /** One round moves one byte and both pointers. */
  lemma OneByte(m: State, d: Reg)
    requires CanCopy(m, d, 1)
    ensures
      var m', x, z := CopyOnce(m, d), PairValue(m, X), PairValue(m, Z);
      && m' == m.(r := m'.r, sram := m.sram[x := m.flash[z]])
      && PairValue(m', X) == x + 1 && PairValue(m', Z) == z + 1
      && (forall k: Reg :: k !in {d, X as int, X + 1, Z as int, Z + 1} ==> m'.r[k] == m.r[k])
  {
    hide Execute, PairValue, Plain;
    LoadStep(m, d);
    StoreStep(Execute(m, Data(Lpm(d, true))), d);
  }

  lemma OverlayStep(mem: seq<Byte>, x: nat, flash: seq<Byte>, z: nat, n: nat)
    requires x + n <= |mem| && z + n <= |flash|
    ensures n == 0 ==> Loader.Overlay(mem, x, flash[z..z + n]) == mem
    ensures
      n > 0 ==>
        Loader.Overlay(mem[x := flash[z]], x + 1, flash[z + 1..z + n]) == Loader.Overlay(mem, x, flash[z..z + n])
  {
  }

  /**
   n rounds copy n bytes of flash to SRAM. Nothing else in SRAM, flash, SREG or the peripherals
   changes, and of the registers only Rd and the two pointers.
   */
  lemma {:induction false} CopiesExactly(m: State, d: Reg, n: nat)
    requires CanCopy(m, d, n)
    ensures
      var m', x, z := CopyTimes(m, d, n), PairValue(m, X), PairValue(m, Z);
      && m' == m.(r := m'.r, sram := Loader.Overlay(m.sram, x, m.flash[z..z + n]))
      && PairValue(m', X) == x + n && PairValue(m', Z) == z + n
      && (forall k: Reg :: k !in {d, X as int, X + 1, Z as int, Z + 1} ==> m'.r[k] == m.r[k])
    decreases n
  {
    hide CopyOnce, PairValue, Plain, Loader.Overlay;
    OverlayStep(m.sram, PairValue(m, X), m.flash, PairValue(m, Z), n);
    if n > 0 {
      OneByte(m, d);
      CopiesExactly(CopyOnce(m, d), d, n - 1);
    }
  }

  /** Copying from flash what SRAM already holds changes nothing but registers. */
  lemma ReplayLeavesSram(file: seq<Byte>, img: Loader.Image, s: Loader.Segment, dest: nat, m: State, d: Reg)
    requires img.Sized() && Loader.SegmentReadable(file, s) && LoaderLaws.HasImage(s)
    requires ImageLaws.InFlash(file, img, s, dest) && ImageLaws.InSram(file, img, s)
    requires m.flash == img.flash && m.sram == img.sram
    requires PairValue(m, X) == Loader.SramAddr(s) && PairValue(m, Z) == dest && CanCopy(m, d, s.filesz)
    ensures CopyTimes(m, d, s.filesz) == m.(r := CopyTimes(m, d, s.filesz).r)
  {
    hide CopyTimes, CanCopy;
    CopiesExactly(m, d, s.filesz);
    var a := Loader.SramAddr(s);
    assert forall k :: a <= k < a + s.filesz ==> m.sram[k] == m.sram[a..a + s.filesz][k - a];
    assert Loader.Overlay(m.sram, a, m.flash[dest..dest + s.filesz]) == m.sram;
  }

  /**
   From a successful load with load addresses in data space: on a machine holding the loaded flash and
   SRAM, the startup copy of any .data segment that no later one disagrees with in SRAM leaves SRAM as
   loaded.
   */
  lemma LoadedDataSurvivesStartup(file: seq<Byte>, flash: seq<Byte>, sram: seq<Byte>, i: nat, m: State, d: Reg)
    requires |flash| == FLASH_SIZE && |sram| == SRAM_SIZE && Loader.LoadFile(file, flash, sram).failed.None?
    requires Loader.HeaderRejection(file).None? && ImageLaws.LoadedFromDataSpace(Loader.Segments(file))
    requires i < |Loader.Segments(file)| && LoaderLaws.HasImage(Loader.Segments(file)[i])
    requires ImageLaws.SramIntact(file, Loader.Segments(file), i)
    requires
      var segs, img := Loader.Segments(file), Loader.LoadFile(file, flash, sram).img;
      && m.flash == img.flash && m.sram == img.sram
      && PairValue(m, X) == segs[i].vaddr - Loader.DATA_SPACE
      && PairValue(m, Z) == ImageLaws.DestOf(segs, i, LoaderLaws.TextEnd(segs, 0))
      && CanCopy(m, d, segs[i].filesz)
    ensures CopyTimes(m, d, Loader.Segments(file)[i].filesz).sram == m.sram
    ensures CopyTimes(m, d, Loader.Segments(file)[i].filesz).flash == m.flash
  {
    hide CopyTimes, CanCopy, Loader.HeaderRejection, Loader.LoadFile, Loader.Segments, LoaderLaws.TextEnd,
         ImageLaws.SramIntact, ImageLaws.LoadedFromDataSpace, ImageLaws.DestOf, ImageLaws.InFlash, PairValue;
    var segs := Loader.Segments(file);
    ImageLaws.LoadedDataMatches(file, flash, sram, i);
    ReplayLeavesSram(file, Loader.LoadFile(file, flash, sram).img, segs[i],
                     ImageLaws.DestOf(segs, i, LoaderLaws.TextEnd(segs, 0)), m, d);
  }
}
