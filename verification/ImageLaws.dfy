/**
 The .data images that the loader leaves in flash and SRAM: for every file, exactly when an image is
 still what the segment holds, and when the text is still what pass 1 wrote.
 */
module ImageLaws {
  import opened Bits
  import opened Machine
  import opened Loader
  import opened LoaderLaws

  // ------------------------------------------------------------------ the last segment over an address

  /** Where the image of segs[i] goes when the cursor starts at `next`. */
  function DestOf(segs: seq<Segment>, i: nat, next: nat): nat
    requires i < |segs|
    decreases |segs|
  {
    if i == 0 then Destination(segs[0], next) else DestOf(segs[1..], i - 1, CursorAfter(segs[0], next))
  }

  /** The image of segs[j] lies over flash address a. */
  predicate OverFlash(segs: seq<Segment>, j: nat, next: nat, a: nat)
    requires j < |segs|
  {
    HasImage(segs[j]) && DestOf(segs, j, next) <= a < DestOf(segs, j, next) + segs[j].filesz
  }

  /** It is the last one to do so. */
  predicate LastInFlash(segs: seq<Segment>, j: nat, next: nat, a: nat)
    requires j < |segs|
  {
    OverFlash(segs, j, next, a) && forall k :: j < k < |segs| ==> !OverFlash(segs, k, next, a)
  }

  /** The byte it puts there. */
  function FlashValue(file: seq<Byte>, segs: seq<Segment>, j: nat, next: nat, a: nat): Byte
    requires Readable(file, segs) && j < |segs| && OverFlash(segs, j, next, a)
  {
    Payload(file, segs[j])[a - DestOf(segs, j, next)]
  }

  /** The segment, with its .bss, lies over SRAM address a. */
  predicate OverSram(s: Segment, a: nat) {
    IsData(s) && DATA_SPACE <= s.vaddr <= DATA_SPACE + a < s.vaddr + s.memsz
  }

  predicate LastInSram(segs: seq<Segment>, j: nat, a: nat)
    requires j < |segs|
  {
    OverSram(segs[j], a) && forall k :: j < k < |segs| ==> !OverSram(segs[k], a)
  }

  /** An initial value or a zero of .bss. */
  function SramValue(file: seq<Byte>, s: Segment, a: nat): Byte
    requires SegmentReadable(file, s) && OverSram(s, a)
  {
    var k := a - SramAddr(s);
    if k < s.filesz then Payload(file, s)[k] else 0
  }

  lemma {:induction false} LastFlashExists(segs: seq<Segment>, i: nat, next: nat, a: nat) returns (j: nat)
    requires i < |segs| && OverFlash(segs, i, next, a)
    ensures i <= j < |segs| && LastInFlash(segs, j, next, a)
    decreases |segs| - i
  {
    if k: nat :| i < k < |segs| && OverFlash(segs, k, next, a) {
      j := LastFlashExists(segs, k, next, a);
    } else {
      j := i;
    }
  }

  lemma {:induction false} LastSramExists(segs: seq<Segment>, i: nat, a: nat) returns (j: nat)
    requires i < |segs| && OverSram(segs[i], a)
    ensures i <= j < |segs| && LastInSram(segs, j, a)
    decreases |segs| - i
  {
    if k: nat :| i < k < |segs| && OverSram(segs[k], a) {
      j := LastSramExists(segs, k, a);
    } else {
      j := i;
    }
  }

  // ------------------------------------------------------------------ every byte after the data pass

  lemma LoadDataBytes(file: seq<Byte>, img: Image, s: Segment, a: nat)
    requires img.Sized() && SegmentReadable(file, s) && LoadData(file, img, s).failed.None?
    ensures
      var dest, after := Destination(s, img.next), LoadData(file, img, s).img;
      && after.next == CursorAfter(s, img.next)
      && (HasImage(s) ==> dest + s.filesz <= FLASH_SIZE) && DataInPlace(s)
      && (a < FLASH_SIZE ==>
            after.flash[a] == if HasImage(s) && dest <= a < dest + s.filesz then Payload(file, s)[a - dest]
                              else img.flash[a])
      && (a < SRAM_SIZE ==> after.sram[a] == if OverSram(s, a) then SramValue(file, s, a) else img.sram[a])
  {
    if IsData(s) {
      var q := LoadInitialized(file, img, s);
      assert a < SRAM_SIZE && a < SramAddr(s) + s.filesz ==> LoadData(file, img, s).img.sram[a] == q.img.sram[a];
    }
  }

  /** The segments behind the first, with the cursor that they start from. */
  lemma Tail(segs: seq<Segment>, next: nat, a: nat)
    requires segs != []
    ensures forall j: nat {:trigger OverFlash(segs[1..], j, CursorAfter(segs[0], next), a)} | j < |segs| - 1 ::
      OverFlash(segs, j + 1, next, a) == OverFlash(segs[1..], j, CursorAfter(segs[0], next), a)
  {
  }

  lemma {:induction false} FlashByteKept(file: seq<Byte>, img: Image, segs: seq<Segment>, a: nat)
    requires img.Sized() && Readable(file, segs) && DataPass(file, img, segs).failed.None? && a < FLASH_SIZE
    requires forall j :: 0 <= j < |segs| ==> !OverFlash(segs, j, img.next, a)
    ensures DataPass(file, img, segs).img.flash[a] == img.flash[a]
    decreases |segs|
  {
    hide LoadData, CursorAfter, HasImage;
    if segs != [] {
      LoadDataBytes(file, img, segs[0], a);
      assert !OverFlash(segs, 0, img.next, a);
      Tail(segs, img.next, a);
      hide OverFlash;
      FlashByteKept(file, LoadData(file, img, segs[0]).img, segs[1..], a);
    }
  }

  lemma {:induction false} FlashByteLast(file: seq<Byte>, img: Image, segs: seq<Segment>, j: nat, a: nat)
    requires img.Sized() && Readable(file, segs) && DataPass(file, img, segs).failed.None?
    requires j < |segs| && LastInFlash(segs, j, img.next, a)
    ensures a < FLASH_SIZE && DataPass(file, img, segs).img.flash[a] == FlashValue(file, segs, j, img.next, a)
    decreases |segs|
  {
    hide LoadData, CursorAfter, HasImage;
    LoadDataBytes(file, img, segs[0], a);
    Tail(segs, img.next, a);
    var after := LoadData(file, img, segs[0]).img;
    if j == 0 {
      FlashByteKept(file, after, segs[1..], a);
    } else {
      FlashByteLast(file, after, segs[1..], j - 1, a);
    }
  }

  lemma {:induction false} SramByteKept(file: seq<Byte>, img: Image, segs: seq<Segment>, a: nat)
    requires img.Sized() && Readable(file, segs) && DataPass(file, img, segs).failed.None? && a < SRAM_SIZE
    requires forall j :: 0 <= j < |segs| ==> !OverSram(segs[j], a)
    ensures DataPass(file, img, segs).img.sram[a] == img.sram[a]
    decreases |segs|
  {
    hide LoadData, OverSram;
    if segs != [] {
      LoadDataBytes(file, img, segs[0], a);
      SramByteKept(file, LoadData(file, img, segs[0]).img, segs[1..], a);
    }
  }

  lemma {:induction false} SramByteLast(file: seq<Byte>, img: Image, segs: seq<Segment>, j: nat, a: nat)
    requires img.Sized() && Readable(file, segs) && DataPass(file, img, segs).failed.None?
    requires j < |segs| && LastInSram(segs, j, a)
    ensures a < SRAM_SIZE && DataPass(file, img, segs).img.sram[a] == SramValue(file, segs[j], a)
    decreases |segs|
  {
    hide LoadData, SramValue;
    LoadDataBytes(file, img, segs[0], a);
    var after := LoadData(file, img, segs[0]).img;
    if j == 0 {
      SramByteKept(file, after, segs[1..], a);
    } else {
      SramByteLast(file, after, segs[1..], j - 1, a);
    }
  }

  // ------------------------------------------------------------------ exactly when an image survives

  /** Wherever later images lie over the one of segs[i] in flash, the last of them holds the same byte. */
  predicate FlashIntact(file: seq<Byte>, segs: seq<Segment>, i: nat, next: nat)
    requires Readable(file, segs) && i < |segs|
  {
    forall a: nat, j
      | a < FLASH_SIZE && i < j < |segs| && OverFlash(segs, i, next, a) && LastInFlash(segs, j, next, a) ::
      FlashValue(file, segs, j, next, a) == FlashValue(file, segs, i, next, a)
  }

  /** The same for the initial values of segs[i] in SRAM, with zeros where a later segment has .bss. */
  predicate SramIntact(file: seq<Byte>, segs: seq<Segment>, i: nat)
    requires Readable(file, segs) && i < |segs|
  {
    forall a: nat, j | a < SRAM_SIZE && i < j < |segs| && HoldsInitial(segs[i], a) && LastInSram(segs, j, a) ::
      SramValue(file, segs[j], a) == SramValue(file, segs[i], a)
  }

  predicate HoldsInitial(s: Segment, a: nat) {
    OverSram(s, a) && a - SramAddr(s) < s.filesz
  }

  /** The flash image of s is what the segment holds. */
  predicate InFlash(file: seq<Byte>, img: Image, s: Segment, dest: nat)
    requires img.Sized() && SegmentReadable(file, s) && HasImage(s)
  {
    dest + s.filesz <= FLASH_SIZE && img.flash[dest..dest + s.filesz] == Payload(file, s)
  }

  /** SRAM holds the initial values of s. */
  predicate InSram(file: seq<Byte>, img: Image, s: Segment)
    requires img.Sized() && SegmentReadable(file, s) && HasImage(s)
  {
    DataInPlace(s) && img.sram[SramAddr(s)..SramAddr(s) + s.filesz] == Payload(file, s)
  }

  lemma {:induction false} PassPlaces(file: seq<Byte>, img: Image, segs: seq<Segment>, i: nat)
    requires img.Sized() && Readable(file, segs) && DataPass(file, img, segs).failed.None?
    requires i < |segs| && HasImage(segs[i])
    ensures DestOf(segs, i, img.next) + segs[i].filesz <= FLASH_SIZE && DataInPlace(segs[i])
    decreases |segs|
  {
    hide LoadData, CursorAfter, HasImage, DataInPlace;
    LoadDataBytes(file, img, segs[0], 0);
    if i > 0 {
      PassPlaces(file, LoadData(file, img, segs[0]).img, segs[1..], i - 1);
    }
  }

  lemma FlashExactly(file: seq<Byte>, img: Image, segs: seq<Segment>, i: nat)
    requires img.Sized() && Readable(file, segs) && DataPass(file, img, segs).failed.None?
    requires i < |segs| && HasImage(segs[i])
    ensures
      InFlash(file, DataPass(file, img, segs).img, segs[i], DestOf(segs, i, img.next)) <==>
      FlashIntact(file, segs, i, img.next)
  {
    hide DataPass, Payload, DestOf;
    var dest, n, after := DestOf(segs, i, img.next), segs[i].filesz, DataPass(file, img, segs).img;
    PassPlaces(file, img, segs, i);
    if FlashIntact(file, segs, i, img.next) {
      forall k: nat | k < n
        ensures after.flash[dest..dest + n][k] == Payload(file, segs[i])[k]
      {
        assert OverFlash(segs, i, img.next, dest + k);
        var j := LastFlashExists(segs, i, img.next, dest + k);
        FlashByteLast(file, img, segs, j, dest + k);
      }
    }
    if InFlash(file, after, segs[i], dest) {
      forall a: nat, j
        | a < FLASH_SIZE && i < j < |segs| && OverFlash(segs, i, img.next, a) && LastInFlash(segs, j, img.next, a)
        ensures FlashValue(file, segs, j, img.next, a) == FlashValue(file, segs, i, img.next, a)
      {
        FlashByteLast(file, img, segs, j, a);
        assert after.flash[dest..dest + n][a - dest] == after.flash[a];
      }
    }
  }

  lemma SramExactly(file: seq<Byte>, img: Image, segs: seq<Segment>, i: nat)
    requires img.Sized() && Readable(file, segs) && DataPass(file, img, segs).failed.None?
    requires i < |segs| && HasImage(segs[i])
    ensures InSram(file, DataPass(file, img, segs).img, segs[i]) <==> SramIntact(file, segs, i)
  {
    hide DataPass, Payload;
    PassPlaces(file, img, segs, i);
    var lo, n, after := SramAddr(segs[i]), segs[i].filesz, DataPass(file, img, segs).img;
    if SramIntact(file, segs, i) {
      forall k: nat | k < n
        ensures after.sram[lo..lo + n][k] == Payload(file, segs[i])[k]
      {
        assert HoldsInitial(segs[i], lo + k);
        var j := LastSramExists(segs, i, lo + k);
        SramByteLast(file, img, segs, j, lo + k);
      }
    }
    if InSram(file, after, segs[i]) {
      forall a: nat, j | a < SRAM_SIZE && i < j < |segs| && HoldsInitial(segs[i], a) && LastInSram(segs, j, a)
        ensures SramValue(file, segs[j], a) == SramValue(file, segs[i], a)
      {
        SramByteLast(file, img, segs, j, a);
        assert after.sram[lo..lo + n][a - lo] == after.sram[a];
      }
    }
  }

  // ------------------------------------------------------------------ whole files

  /**
   After a successful load, a .data segment is in flash exactly when every later image over it agrees
   with it, and in SRAM exactly when every later segment does: two conditions on the file alone.
   */
  lemma LoadedImageExactly(file: seq<Byte>, flash: seq<Byte>, sram: seq<Byte>, i: nat)
    requires |flash| == FLASH_SIZE && |sram| == SRAM_SIZE && LoadFile(file, flash, sram).failed.None?
    requires HeaderRejection(file).None? && i < |Segments(file)| && HasImage(Segments(file)[i])
    ensures
      var segs, end, img := Segments(file), TextEnd(Segments(file), 0), LoadFile(file, flash, sram).img;
      && (InFlash(file, img, segs[i], DestOf(segs, i, end)) <==> FlashIntact(file, segs, i, end))
      && (InSram(file, img, segs[i]) <==> SramIntact(file, segs, i))
  {
    hide HeaderRejection, TextPass, DataPass, TextPatches, TextPlaced, HasText, TextEnd, Fit, ApplyAll, Segments,
         DestOf, FlashIntact, SramIntact, InFlash, InSram, HasImage;
    var segs, start := Segments(file), Image(flash, sram, 0, false);
    TextPassExact(file, start, segs);
    var text := TextPass(file, start, segs).img;
    FlashExactly(file, text, segs, i);
    SramExactly(file, text, segs, i);
  }

  /** Flash as pass 1 leaves it. */
  function TextFlash(file: seq<Byte>, flash: seq<Byte>, sram: seq<Byte>): (r: seq<Byte>)
    requires |flash| == FLASH_SIZE && |sram| == SRAM_SIZE && HeaderRejection(file).None?
    ensures |r| == FLASH_SIZE
  {
    TextPass(file, Image(flash, sram, 0, false), Segments(file)).img.flash
  }

  /**
   A flash byte is still what pass 1 left there, text or old contents, exactly when no image lies over
   it or the last one over it agrees.
   */
  lemma LoadedTextExactly(file: seq<Byte>, flash: seq<Byte>, sram: seq<Byte>, a: nat)
    requires |flash| == FLASH_SIZE && |sram| == SRAM_SIZE && LoadFile(file, flash, sram).failed.None?
    requires HeaderRejection(file).None? && a < FLASH_SIZE
    ensures
      var segs, end := Segments(file), TextEnd(Segments(file), 0);
      LoadFile(file, flash, sram).img.flash[a] == TextFlash(file, flash, sram)[a] <==>
      forall j | 0 <= j < |segs| && LastInFlash(segs, j, end, a) ::
        FlashValue(file, segs, j, end, a) == TextFlash(file, flash, sram)[a]
  {
    hide HeaderRejection, TextPass, DataPass, TextPatches, TextPlaced, HasText, TextEnd, Fit, ApplyAll, Segments,
         OverFlash, FlashValue;
    var segs, start := Segments(file), Image(flash, sram, 0, false);
    TextPassExact(file, start, segs);
    var text := TextPass(file, start, segs).img;
    if i: nat :| i < |segs| && OverFlash(segs, i, text.next, a) {
      var j := LastFlashExists(segs, i, text.next, a);
      FlashByteLast(file, text, segs, j, a);
      forall k | 0 <= k < |segs| && LastInFlash(segs, k, text.next, a)
        ensures k == j
      {
      }
    } else {
      FlashByteKept(file, text, segs, a);
    }
  }

  /** Every image has its load address in data space, as the linker leaves it without a flash address. */
  predicate LoadedFromDataSpace(segs: seq<Segment>) {
    forall i :: 0 <= i < |segs| && HasImage(segs[i]) ==> segs[i].paddr >= DATA_SPACE
  }

  /** Such images follow one another in flash, behind the cursor. */
  lemma {:induction false} ImagesFollow(segs: seq<Segment>, i: nat, next: nat)
    requires LoadedFromDataSpace(segs) && i < |segs| && HasImage(segs[i])
    ensures DestOf(segs, i, next) >= next
    ensures
      forall j :: i < j < |segs| && HasImage(segs[j]) ==>
        DestOf(segs, j, next) >= DestOf(segs, i, next) + segs[i].filesz
    decreases |segs|
  {
    var rest, cursor := segs[1..], CursorAfter(segs[0], next);
    forall j | 0 <= j < |rest| && HasImage(rest[j])
      ensures DestOf(rest, j, cursor) >= cursor
    {
      ImagesFollow(rest, j, cursor);
    }
    forall j | i < j < |segs| && HasImage(segs[j])
      ensures DestOf(segs, j, next) >= DestOf(segs, i, next) + segs[i].filesz
    {
      assert HasImage(rest[j - 1]) && DestOf(segs, j, next) == DestOf(rest, j - 1, cursor);
      if i > 0 {
        assert HasImage(rest[i - 1]) && DestOf(segs, i, next) == DestOf(rest, i - 1, cursor);
        ImagesFollow(rest, i - 1, cursor);
      }
    }
  }

  /**
   With all load addresses in data space the conditions on flash hold: every .data image is intact and
   lies behind the text, the text is untouched, and SRAM agrees with flash exactly where no later
   segment disagrees in SRAM.
   */
  lemma LoadedDataMatches(file: seq<Byte>, flash: seq<Byte>, sram: seq<Byte>, i: nat)
    requires |flash| == FLASH_SIZE && |sram| == SRAM_SIZE && LoadFile(file, flash, sram).failed.None?
    requires HeaderRejection(file).None? && LoadedFromDataSpace(Segments(file))
    requires i < |Segments(file)| && HasImage(Segments(file)[i])
    ensures
      var segs, end, img := Segments(file), TextEnd(Segments(file), 0), LoadFile(file, flash, sram).img;
      && DestOf(segs, i, end) >= end && InFlash(file, img, segs[i], DestOf(segs, i, end))
      && (InSram(file, img, segs[i]) <==> SramIntact(file, segs, i))
  {
    hide HeaderRejection, LoadFile, TextEnd, Segments, DestOf, LoadedFromDataSpace, InFlash, InSram, SramIntact,
         FlashValue, HasImage;
    var segs, end := Segments(file), TextEnd(Segments(file), 0);
    ImagesFollow(segs, i, end);
    LoadedImageExactly(file, flash, sram, i);
    assert FlashIntact(file, segs, i, end);
  }

  lemma LoadedTextKept(file: seq<Byte>, flash: seq<Byte>, sram: seq<Byte>, a: nat)
    requires |flash| == FLASH_SIZE && |sram| == SRAM_SIZE && LoadFile(file, flash, sram).failed.None?
    requires HeaderRejection(file).None? && LoadedFromDataSpace(Segments(file))
    requires a < FLASH_SIZE && a < TextEnd(Segments(file), 0)
    ensures LoadFile(file, flash, sram).img.flash[a] == TextFlash(file, flash, sram)[a]
  {
    hide HeaderRejection, LoadFile, TextEnd, Segments, DestOf, LoadedFromDataSpace, TextFlash, FlashValue, HasImage;
    var segs, end := Segments(file), TextEnd(Segments(file), 0);
    LoadedTextExactly(file, flash, sram, a);
    forall j | 0 <= j < |segs| && LastInFlash(segs, j, end, a)
      ensures false
    {
      ImagesFollow(segs, j, end);
    }
  }

  predicate Apart(a: nat, n: nat, b: nat, m: nat) {
    a + n <= b || b + m <= a
  }

  /** No later segment is placed over the flash image of segs[i]. */
  predicate FlashKept(segs: seq<Segment>, i: nat, next: nat)
    requires i < |segs|
  {
    forall j :: i < j < |segs| && HasImage(segs[j]) ==>
      Apart(DestOf(segs, i, next), segs[i].filesz, DestOf(segs, j, next), segs[j].filesz)
  }

  /** No later segment is placed over the initial values of segs[i] in SRAM. */
  predicate SramKept(segs: seq<Segment>, i: nat)
    requires i < |segs|
  {
    forall j :: i < j < |segs| && IsData(segs[j]) ==>
      Apart(segs[i].vaddr, segs[i].filesz, segs[j].vaddr, segs[j].memsz)
  }

  /** Disjoint ranges are intact, whatever the bytes. */
  lemma DisjointIsIntact(file: seq<Byte>, segs: seq<Segment>, i: nat, next: nat)
    requires Readable(file, segs) && i < |segs|
    ensures FlashKept(segs, i, next) ==> FlashIntact(file, segs, i, next)
    ensures SramKept(segs, i) ==> SramIntact(file, segs, i)
  {
    hide DestOf;
    if FlashKept(segs, i, next) {
      forall a: nat, j | i < j < |segs| && OverFlash(segs, i, next, a)
        ensures !LastInFlash(segs, j, next, a)
      {
      }
    }
    if SramKept(segs, i) {
      forall a: nat, j | i < j < |segs| && HoldsInitial(segs[i], a)
        ensures !LastInSram(segs, j, a)
      {
      }
    }
  }

  /** Images that nothing later is placed over are in flash and in SRAM. */
  lemma DataPassMatches(file: seq<Byte>, img: Image, segs: seq<Segment>, i: nat)
    requires img.Sized() && Readable(file, segs) && DataPass(file, img, segs).failed.None?
    requires i < |segs| && HasImage(segs[i]) && FlashKept(segs, i, img.next) && SramKept(segs, i)
    ensures InFlash(file, DataPass(file, img, segs).img, segs[i], DestOf(segs, i, img.next))
    ensures InSram(file, DataPass(file, img, segs).img, segs[i])
  {
    hide FlashKept, SramKept, FlashIntact, SramIntact, InFlash, InSram, DataPass, DestOf;
    DisjointIsIntact(file, segs, i, img.next);
    FlashExactly(file, img, segs, i);
    SramExactly(file, img, segs, i);
  }

  // ------------------------------------------------------------------ two ways to lose an image

  /** Two segments of different contents and equal size that share a flash load address: the first is lost. */
  lemma SharedLoadAddressDiffers(file: seq<Byte>, img: Image, s: Segment, t: Segment)
    requires img.Sized() && SegmentReadable(file, s) && SegmentReadable(file, t)
    requires DataPass(file, img, [s, t]).failed.None?
    requires HasImage(s) && HasImage(t) && s.paddr == t.paddr < DATA_SPACE && s.filesz == t.filesz
    requires Payload(file, s) != Payload(file, t)
    ensures !InFlash(file, DataPass(file, img, [s, t]).img, s, s.paddr)
  {
    hide DataPass, InFlash;
    var segs := [s, t];
    assert [s, t][1..] == [t];
    assert DestOf(segs, 0, img.next) == s.paddr && DestOf(segs, 1, img.next) == t.paddr;
    FlashExactly(file, img, segs, 0);
    PassPlaces(file, img, segs, 1);
    var k: nat :| k < s.filesz && Payload(file, s)[k] != Payload(file, t)[k];
    assert LastInFlash(segs, 1, img.next, s.paddr + k);
  }

  const DATA := 0x80_0100

  /** Two one-byte images with the flash load address 16. */
  const SHARED := [Segment(PT_LOAD, 0, DATA, 16, 1, 1, 2), Segment(PT_LOAD, 1, DATA + 1, 16, 1, 1, 2)]

  /** The second of three images goes to flash address 0 and drags the cursor back over text and first image. */
  const DRAGGED := [
    Segment(PT_LOAD, 0, DATA, DATA, 1, 1, 2),
    Segment(PT_LOAD, 1, DATA + 1, 0, 1, 1, 2),
    Segment(PT_LOAD, 2, DATA + 2, DATA + 2, 4, 4, 2)]

  const SAMPLE: seq<Byte> := [1, 2, 3, 3, 3, 3]

  /** A segment of SAMPLE that fits loads, and its bytes land where they should. */
  lemma SampleLoads(img: Image, s: Segment, a: nat)
    requires img.Sized() && a < SRAM_SIZE && s.kind == PT_LOAD && s.flags == 2
    requires 0 < s.filesz == s.memsz && s.offset + s.filesz <= |SAMPLE|
    requires DATA <= s.vaddr < DATA + 0x100 && Destination(s, img.next) + s.filesz <= FLASH_SIZE
    ensures HasImage(s) && SegmentReadable(SAMPLE, s) && DataInPlace(s)
    ensures
      var dest, p := Destination(s, img.next), LoadData(SAMPLE, img, s);
      && p.failed.None? && p.img.next == dest + s.filesz
      && (p.img.flash[a] == if dest <= a < dest + s.filesz then SAMPLE[s.offset + a - dest] else img.flash[a])
      && (p.img.sram[a] == if s.vaddr <= DATA_SPACE + a < s.vaddr + s.memsz
                           then SAMPLE[s.offset + DATA_SPACE + a - s.vaddr] else img.sram[a])
  {
    hide LoadData;
    assert Bit(2, 1) == Bit(1, 0);
    LoadDataExact(SAMPLE, img, s);
    LoadDataBytes(SAMPLE, img, s, a);
  }

  /** One-byte images, as bytes. */
  lemma OneByteImage(img: Image, s: Segment, dest: nat)
    requires img.Sized() && HasImage(s) && SegmentReadable(SAMPLE, s) && DataInPlace(s) && s.filesz == 1
    requires dest < FLASH_SIZE
    ensures InFlash(SAMPLE, img, s, dest) <==> img.flash[dest] == SAMPLE[s.offset]
    ensures InSram(SAMPLE, img, s) <==> img.sram[SramAddr(s)] == SAMPLE[s.offset]
  {
    var a := SramAddr(s);
    assert img.flash[dest..dest + 1] == [img.flash[dest]] && img.sram[a..a + 1] == [img.sram[a]];
    assert Payload(SAMPLE, s) == [SAMPLE[s.offset]];
  }

  /** A shared load address: both segments load and the first image is gone from flash, not from SRAM. */
  lemma SharedAddressLosesImage(img: Image)
    requires img.Sized()
    ensures Readable(SAMPLE, SHARED) && DataPass(SAMPLE, img, SHARED).failed.None?
    ensures
      var after := DataPass(SAMPLE, img, SHARED).img;
      HasImage(SHARED[0]) && InSram(SAMPLE, after, SHARED[0]) && !InFlash(SAMPLE, after, SHARED[0], 16)
  {
    hide LoadData, HasImage, InFlash, InSram, SegmentReadable;
    SampleLoads(img, SHARED[0], 0x100);
    var one := LoadData(SAMPLE, img, SHARED[0]).img;
    SampleLoads(one, SHARED[1], 0x100);
    SampleLoads(one, SHARED[1], 16);
    var two := LoadData(SAMPLE, one, SHARED[1]).img;
    assert SHARED[1..] == [SHARED[1]] && [SHARED[1]][1..] == [];
    assert DataPass(SAMPLE, one, [SHARED[1]]) == Progress(two, None);
    OneByteImage(two, SHARED[0], 16);
  }

  /**
   No load address is shared, yet with a text end of 4 the third image starts at 1: it overwrites the
   text from there and the first image, which pass 2 had placed at 4.
   */
  lemma DraggedCursorLosesImage(img: Image)
    requires img.Sized() && img.next == 4
    ensures DestOf(DRAGGED, 0, 4) == 4 && DestOf(DRAGGED, 1, 4) == 0 && DestOf(DRAGGED, 2, 4) == 1
    ensures Readable(SAMPLE, DRAGGED) && DataPass(SAMPLE, img, DRAGGED).failed.None?
    ensures
      var after := DataPass(SAMPLE, img, DRAGGED).img;
      && HasImage(DRAGGED[0]) && InSram(SAMPLE, after, DRAGGED[0]) && !InFlash(SAMPLE, after, DRAGGED[0], 4)
      && after.flash[1] == 3
  {
    hide LoadData, HasImage, InFlash, InSram, SegmentReadable;
    SampleLoads(img, DRAGGED[0], 0x100);
    var one := LoadData(SAMPLE, img, DRAGGED[0]).img;
    SampleLoads(one, DRAGGED[1], 0x100);
    var two := LoadData(SAMPLE, one, DRAGGED[1]).img;
    SampleLoads(two, DRAGGED[2], 0x100);
    SampleLoads(two, DRAGGED[2], 4);
    SampleLoads(two, DRAGGED[2], 1);
    var three := LoadData(SAMPLE, two, DRAGGED[2]).img;
    assert DRAGGED[1..] == [DRAGGED[1], DRAGGED[2]] && [DRAGGED[1], DRAGGED[2]][1..] == [DRAGGED[2]];
    assert [DRAGGED[2]][1..] == [];
    assert DestOf(DRAGGED, 1, 4) == DestOf([DRAGGED[1], DRAGGED[2]], 0, 5);
    assert DestOf(DRAGGED, 2, 4) == DestOf([DRAGGED[1], DRAGGED[2]], 1, 5) == DestOf([DRAGGED[2]], 0, 1);
    assert DataPass(SAMPLE, two, [DRAGGED[2]]) == Progress(three, None);
    assert DataPass(SAMPLE, one, [DRAGGED[1], DRAGGED[2]]) == Progress(three, None);
    OneByteImage(three, DRAGGED[0], 4);
  }
}
