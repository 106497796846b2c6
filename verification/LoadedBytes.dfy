/**
 Every byte of flash and SRAM after a successful load, from the fields of the program headers and the
 bytes of the file; and for every load, whether and why it fails.
 */
module LoadedBytes {
  import opened Bits
  import opened Machine
  import opened Loader
  import opened LoaderLaws
  import opened ImageLaws
  import opened ElfFormat

  // PT_LOAD is 1, the write permission bit 1 of the flags, and data addresses start at 0x800000.

  predicate ReadOnly(s: Segment) {
    s.kind == 1 && s.flags / 2 % 2 == 0
  }

  predicate Writable(s: Segment) {
    s.kind == 1 && s.flags / 2 % 2 == 1
  }

  predicate Initialized(s: Segment) {
    Writable(s) && s.filesz > 0
  }

  lemma KindsAre(s: Segment)
    ensures IsText(s) == ReadOnly(s) && IsData(s) == Writable(s) && HasImage(s) == Initialized(s)
  {
    assert Bit(s.flags, 1) == Bit(s.flags / 2, 0);
  }

  /** The furthest end of a read-only segment. */
  predicate IsTextStop(segs: seq<Segment>, stop: nat) {
    && (forall i :: 0 <= i < |segs| && ReadOnly(segs[i]) ==> segs[i].vaddr + segs[i].filesz <= stop)
    && (stop == 0 || exists i :: 0 <= i < |segs| && ReadOnly(segs[i]) && segs[i].vaddr + segs[i].filesz == stop)
  }

  /** Where the next image without a flash address goes, in front of segment i. */
  function Cursor(segs: seq<Segment>, i: nat, stop: nat): nat
    requires i <= |segs|
  {
    if i == 0 then stop
    else if !Initialized(segs[i - 1]) then Cursor(segs, i - 1, stop)
    else (if segs[i - 1].paddr < 0x800000 then segs[i - 1].paddr else Cursor(segs, i - 1, stop)) + segs[i - 1].filesz
  }

  /** Where the image of segment i goes. */
  function Place(segs: seq<Segment>, i: nat, stop: nat): nat
    requires i < |segs|
  {
    if segs[i].paddr < 0x800000 then segs[i].paddr else Cursor(segs, i, stop)
  }

  lemma {:induction false} CursorShifts(segs: seq<Segment>, i: nat, stop: nat)
    requires i < |segs|
    ensures Cursor(segs, i + 1, stop) == Cursor(segs[1..], i, CursorAfter(segs[0], stop))
  {
    hide HasImage, Initialized;
    if i == 0 {
      KindsAre(segs[0]);
    } else {
      assert segs[1..][i - 1] == segs[i];
      CursorShifts(segs, i - 1, stop);
    }
  }

  lemma {:induction false} PlaceIsDest(segs: seq<Segment>, i: nat, stop: nat)
    requires i < |segs|
    ensures DestOf(segs, i, stop) == Place(segs, i, stop)
    decreases |segs|
  {
    hide CursorAfter;
    if i > 0 {
      PlaceIsDest(segs[1..], i - 1, CursorAfter(segs[0], stop));
      CursorShifts(segs, i - 1, stop);
    }
  }

  lemma {:induction false} TextEndIsStop(segs: seq<Segment>, next: nat)
    ensures
      var end := TextEnd(segs, next);
      && end >= next
      && (forall i :: 0 <= i < |segs| && IsText(segs[i]) ==> segs[i].vaddr + segs[i].filesz <= end)
      && (end == next || exists i :: 0 <= i < |segs| && IsText(segs[i]) && segs[i].vaddr + segs[i].filesz == end)
    decreases |segs|
  {
    hide IsText;
    if segs != [] {
      var after := TextEndAfter(segs[0], next);
      var end := TextEnd(segs[1..], after);
      TextEndIsStop(segs[1..], after);
      forall i | 0 <= i < |segs| && IsText(segs[i])
        ensures segs[i].vaddr + segs[i].filesz <= end
      {
        assert i > 0 ==> segs[i] == segs[1..][i - 1];
      }
      if end != after {
        var i :| 0 <= i < |segs[1..]| && IsText(segs[1..][i]) && segs[1..][i].vaddr + segs[1..][i].filesz == end;
        assert segs[i + 1] == segs[1..][i];
      } else if end != next {
        assert IsText(segs[0]) && segs[0].vaddr + segs[0].filesz == end;
      }
    }
  }

  lemma StopIsTextEnd(segs: seq<Segment>, stop: nat)
    requires IsTextStop(segs, stop)
    ensures TextEnd(segs, 0) == stop
  {
    hide TextEnd;
    TextEndIsStop(segs, 0);
    forall i | 0 <= i < |segs|
      ensures IsText(segs[i]) == ReadOnly(segs[i])
    {
      KindsAre(segs[i]);
    }
  }

  // ------------------------------------------------------------------ flash, byte by byte

  /** The image of segment j lies over flash address a. */
  predicate ImageOver(segs: seq<Segment>, j: nat, stop: nat, a: nat)
    requires j < |segs|
  {
    Initialized(segs[j]) && Place(segs, j, stop) <= a < Place(segs, j, stop) + segs[j].filesz
  }

  predicate TextOver(s: Segment, a: nat) {
    ReadOnly(s) && s.vaddr <= a < s.vaddr + s.filesz
  }

  predicate BytesOver(s: Segment, a: nat) {
    Writable(s) && s.vaddr <= 0x800000 + a < s.vaddr + s.memsz
  }

  lemma ImageOverIs(segs: seq<Segment>, j: nat, stop: nat, a: nat)
    requires j < |segs|
    ensures OverFlash(segs, j, stop, a) == ImageOver(segs, j, stop, a)
  {
    hide DestOf, Place, HasImage, Initialized;
    KindsAre(segs[j]);
    PlaceIsDest(segs, j, stop);
  }

  lemma {:induction false} TextByteKept(file: seq<Byte>, img: Image, segs: seq<Segment>, a: nat)
    requires img.Sized() && Readable(file, segs) && TextPass(file, img, segs).failed.None? && a < 0x8000
    requires forall j :: 0 <= j < |segs| ==> !TextOver(segs[j], a)
    ensures TextPass(file, img, segs).img.flash[a] == img.flash[a]
    decreases |segs|
  {
    if segs != [] {
      assert !TextOver(segs[0], a);
      KindsAre(segs[0]);
      hide TextOver, Payload;
      TextByteKept(file, LoadText(file, img, segs[0]).img, segs[1..], a);
    }
  }

  lemma {:induction false} TextByteLast(file: seq<Byte>, img: Image, segs: seq<Segment>, i: nat, a: nat)
    requires img.Sized() && Readable(file, segs) && TextPass(file, img, segs).failed.None?
    requires i < |segs| && TextOver(segs[i], a) && forall j :: i < j < |segs| ==> !TextOver(segs[j], a)
    ensures a < 0x8000 && segs[i].vaddr <= a && segs[i].offset + (a - segs[i].vaddr) < |file|
    ensures TextPass(file, img, segs).img.flash[a] == file[segs[i].offset + (a - segs[i].vaddr)]
    decreases |segs|
  {
    KindsAre(segs[0]);
    var after := LoadText(file, img, segs[0]).img;
    if i == 0 {
      assert SegmentReadable(file, segs[0]);
      assert after.flash[a] == Payload(file, segs[0])[a - segs[0].vaddr];
      TextByteKept(file, after, segs[1..], a);
    } else {
      hide TextOver, LoadText;
      TextByteLast(file, after, segs[1..], i - 1, a);
    }
  }

  /** The load worked, and `stop` is where the text ends. */
  predicate Loaded(file: seq<Byte>, flash: seq<Byte>, sram: seq<Byte>, segs: seq<Segment>, stop: nat) {
    && |flash| == 0x8000 && |sram| == 0x900 && LoadFile(file, flash, sram).failed.None?
    && HeaderRejection(file).None? && Segments(file) == segs && IsTextStop(segs, stop)
  }

  lemma AfterTextPass(file: seq<Byte>, flash: seq<Byte>, sram: seq<Byte>, segs: seq<Segment>, stop: nat)
    requires Loaded(file, flash, sram, segs, stop)
    ensures
      var text := TextPass(file, Image(flash, sram, 0, false), segs);
      && text.failed.None? && text.img.next == stop && text.img.sram == sram
      && DataPass(file, text.img, segs).failed.None?
      && LoadFile(file, flash, sram).img == DataPass(file, text.img, segs).img
  {
    hide HeaderRejection, TextPass, DataPass, TextPatches, TextPlaced, HasText, TextEnd, Fit, ApplyAll, Segments,
         IsTextStop;
    TextPassExact(file, Image(flash, sram, 0, false), segs);
    StopIsTextEnd(segs, stop);
  }

  /** Flash under an image is the bytes of the last segment that has one there. */
  lemma ImageByte(file: seq<Byte>, flash: seq<Byte>, sram: seq<Byte>, segs: seq<Segment>, stop: nat, i: nat, a: nat)
    requires Loaded(file, flash, sram, segs, stop)
    requires i < |segs| && ImageOver(segs, i, stop, a)
    requires forall j :: i < j < |segs| ==> !ImageOver(segs, j, stop, a)
    ensures a < 0x8000 && segs[i].offset + (a - Place(segs, i, stop)) < |file|
    ensures LoadFile(file, flash, sram).img.flash[a] == file[segs[i].offset + (a - Place(segs, i, stop))]
  {
    hide HeaderRejection, LoadFile, TextPass, DataPass, Segments, Place, DestOf, ImageOver;
    AfterTextPass(file, flash, sram, segs, stop);
    var text := TextPass(file, Image(flash, sram, 0, false), segs).img;
    forall j | 0 <= j < |segs|
      ensures OverFlash(segs, j, stop, a) == ImageOver(segs, j, stop, a)
    {
      ImageOverIs(segs, j, stop, a);
    }
    PlaceIsDest(segs, i, stop);
    FlashByteLast(file, text, segs, i, a);
  }

  /** Under no image, it is the bytes of the last read-only segment over it; under none, what was there. */
  lemma TextByte(file: seq<Byte>, flash: seq<Byte>, sram: seq<Byte>, segs: seq<Segment>, stop: nat, a: nat)
    requires Loaded(file, flash, sram, segs, stop) && a < 0x8000
    requires forall j :: 0 <= j < |segs| ==> !ImageOver(segs, j, stop, a)
    ensures
      forall i :: 0 <= i < |segs| && TextOver(segs[i], a) && (forall j :: i < j < |segs| ==> !TextOver(segs[j], a)) ==>
        && segs[i].offset + (a - segs[i].vaddr) < |file|
        && LoadFile(file, flash, sram).img.flash[a] == file[segs[i].offset + (a - segs[i].vaddr)]
    ensures
      (forall i :: 0 <= i < |segs| ==> !TextOver(segs[i], a)) ==> LoadFile(file, flash, sram).img.flash[a] == flash[a]
  {
    hide HeaderRejection, LoadFile, TextPass, DataPass, Segments, Place, DestOf, ImageOver, TextOver, OverFlash;
    AfterTextPass(file, flash, sram, segs, stop);
    var start := Image(flash, sram, 0, false);
    var text := TextPass(file, start, segs).img;
    forall j | 0 <= j < |segs|
      ensures !OverFlash(segs, j, stop, a)
    {
      ImageOverIs(segs, j, stop, a);
    }
    FlashByteKept(file, text, segs, a);
    forall i | 0 <= i < |segs| && TextOver(segs[i], a) && (forall j :: i < j < |segs| ==> !TextOver(segs[j], a))
      ensures
        && 0 <= a - segs[i].vaddr && segs[i].offset + (a - segs[i].vaddr) < |file|
        && text.flash[a] == file[segs[i].offset + (a - segs[i].vaddr)]
    {
      TextByteLast(file, start, segs, i, a);
    }
    if forall i :: 0 <= i < |segs| ==> !TextOver(segs[i], a) {
      TextByteKept(file, start, segs, a);
    }
  }

  /** SRAM is the bytes of the last writable segment over it and then zeros; under none, what was there. */
  lemma SramByte(file: seq<Byte>, flash: seq<Byte>, sram: seq<Byte>, segs: seq<Segment>, stop: nat, a: nat)
    requires Loaded(file, flash, sram, segs, stop) && a < 0x900
    ensures
      forall i :: 0 <= i < |segs| && BytesOver(segs[i], a) && (forall j :: i < j < |segs| ==> !BytesOver(segs[j], a)) ==>
        var k := 0x800000 + a - segs[i].vaddr;
        if k < segs[i].filesz then
          segs[i].offset + k < |file| && LoadFile(file, flash, sram).img.sram[a] == file[segs[i].offset + k]
        else LoadFile(file, flash, sram).img.sram[a] == 0
    ensures
      (forall i :: 0 <= i < |segs| ==> !BytesOver(segs[i], a)) ==> LoadFile(file, flash, sram).img.sram[a] == sram[a]
  {
    hide HeaderRejection, LoadFile, TextPass, DataPass, Segments, BytesOver, OverSram;
    AfterTextPass(file, flash, sram, segs, stop);
    var text := TextPass(file, Image(flash, sram, 0, false), segs).img;
    forall j | 0 <= j < |segs|
      ensures OverSram(segs[j], a) == BytesOver(segs[j], a)
    {
      BytesOverIs(file, text, segs, j, a);
    }
    forall i | 0 <= i < |segs| && BytesOver(segs[i], a) && (forall j :: i < j < |segs| ==> !BytesOver(segs[j], a))
      ensures
        var k := 0x800000 + a - segs[i].vaddr;
        if 0 <= k < segs[i].filesz then
          segs[i].offset + k < |file| && LoadFile(file, flash, sram).img.sram[a] == file[segs[i].offset + k]
        else k >= 0 && LoadFile(file, flash, sram).img.sram[a] == 0
    {
      SramByteLast(file, text, segs, i, a);
      SramValueIs(file, segs[i], a);
    }
    if forall i :: 0 <= i < |segs| ==> !BytesOver(segs[i], a) {
      SramByteKept(file, text, segs, a);
    }
  }

  lemma BytesOverIs(file: seq<Byte>, img: Image, segs: seq<Segment>, j: nat, a: nat)
    requires img.Sized() && Readable(file, segs) && DataPass(file, img, segs).failed.None? && j < |segs|
    ensures OverSram(segs[j], a) == BytesOver(segs[j], a)
  {
    hide DataPass, Fit, ImagePatches, SramPatches, ApplyAll;
    KindsAre(segs[j]);
    DataPassExact(file, img, segs);
    assert DataInPlace(segs[j]);
  }

  lemma SramValueIs(file: seq<Byte>, s: Segment, a: nat)
    requires SegmentReadable(file, s) && OverSram(s, a)
    ensures
      var k := 0x800000 + a - s.vaddr;
      k >= 0 &&
      if k < s.filesz then s.offset + k < |file| && SramValue(file, s, a) == file[s.offset + k]
      else SramValue(file, s, a) == 0
  {
  }

  // ------------------------------------------------------------------ why a load fails

  /** Pass 1 on one segment. */
  function TextVerdict(s: Segment): Option<Rejection> {
    if !ReadOnly(s) then None
    else if s.vaddr >= 0x800000 then Some(TextInDataSpace)
    else if s.vaddr + s.filesz > 0x8000 then Some(TextTooLong)
    else None
  }

  /** Pass 2 on one segment whose image, if it has one, goes to `place`. */
  function DataVerdict(s: Segment, place: nat): Option<Rejection> {
    if !Writable(s) then None
    else if s.vaddr < 0x800000 || s.vaddr > 0x80FFFF then Some(DataOutsideDataSpace)
    else if s.vaddr - 0x800000 + s.memsz > 0x900 then Some(DataTooLong)
    else if s.filesz > 0 && place + s.filesz > 0x8000 then Some(ImageTooLong)
    else None
  }

  lemma TextVerdictIs(file: seq<Byte>, img: Image, s: Segment)
    requires img.Sized() && SegmentReadable(file, s)
    ensures LoadText(file, img, s).failed == TextVerdict(s)
    ensures TextVerdict(s).None? ==> LoadText(file, img, s).img.hasText == (img.hasText || ReadOnly(s))
  {
    KindsAre(s);
    hide Overlay, Payload;
  }

  lemma DataVerdictIs(file: seq<Byte>, img: Image, s: Segment)
    requires img.Sized() && SegmentReadable(file, s)
    ensures LoadData(file, img, s).failed == DataVerdict(s, if s.paddr < 0x800000 then s.paddr else img.next)
    ensures LoadData(file, img, s).failed.None? ==> LoadData(file, img, s).img.next == CursorAfter(s, img.next)
  {
    KindsAre(s);
    hide Overlay, Payload, Zeros;
  }

  /** Pass 1 fails as the first segment that does not fit. */
  lemma {:induction false} TextPassFails(file: seq<Byte>, img: Image, segs: seq<Segment>, i: nat)
    requires img.Sized() && Readable(file, segs)
    requires i < |segs| && TextVerdict(segs[i]).Some? && forall j :: 0 <= j < i ==> TextVerdict(segs[j]).None?
    ensures TextPass(file, img, segs).failed == TextVerdict(segs[i])
    decreases |segs|
  {
    hide LoadText, TextVerdict;
    TextVerdictIs(file, img, segs[0]);
    if i > 0 {
      assert segs[1..][i - 1] == segs[i];
      TextPassFails(file, LoadText(file, img, segs[0]).img, segs[1..], i - 1);
    }
  }

  /** If all fit it succeeds, and knows whether there was text. */
  lemma {:induction false} TextPassSucceeds(file: seq<Byte>, img: Image, segs: seq<Segment>)
    requires img.Sized() && Readable(file, segs)
    requires forall i :: 0 <= i < |segs| ==> TextVerdict(segs[i]).None?
    ensures TextPass(file, img, segs).failed.None?
    ensures TextPass(file, img, segs).img.hasText <==> img.hasText || exists i :: 0 <= i < |segs| && ReadOnly(segs[i])
    decreases |segs|
  {
    hide LoadText, TextVerdict, ReadOnly;
    if segs != [] {
      TextVerdictIs(file, img, segs[0]);
      var after, rest := LoadText(file, img, segs[0]).img, segs[1..];
      assert forall j :: 0 <= j < |rest| ==> rest[j] == segs[j + 1];
      TextPassSucceeds(file, after, rest);
      if i :| 0 <= i < |segs| && ReadOnly(segs[i]) {
        assert i > 0 ==> ReadOnly(rest[i - 1]);
      }
      if i :| 0 <= i < |rest| && ReadOnly(rest[i]) {
        assert ReadOnly(segs[i + 1]);
      }
    }
  }

  /** Pass 2 fails as the first segment whose data or image does not fit. */
  lemma {:induction false} DataPassFails(file: seq<Byte>, img: Image, segs: seq<Segment>, i: nat)
    requires img.Sized() && Readable(file, segs)
    requires i < |segs| && DataVerdict(segs[i], Place(segs, i, img.next)).Some?
    requires forall j :: 0 <= j < i ==> DataVerdict(segs[j], Place(segs, j, img.next)).None?
    ensures DataPass(file, img, segs).failed == DataVerdict(segs[i], Place(segs, i, img.next))
    decreases |segs|
  {
    hide LoadData, DataVerdict, CursorAfter;
    DataVerdictIs(file, img, segs[0]);
    if i > 0 {
      assert DataVerdict(segs[0], Place(segs, 0, img.next)).None?;
      PlacesShift(segs, img.next);
      hide Place;
      DataPassFails(file, LoadData(file, img, segs[0]).img, segs[1..], i - 1);
    }
  }

  /** If all fit it succeeds. */
  lemma {:induction false} DataPassSucceeds(file: seq<Byte>, img: Image, segs: seq<Segment>)
    requires img.Sized() && Readable(file, segs)
    requires forall i :: 0 <= i < |segs| ==> DataVerdict(segs[i], Place(segs, i, img.next)).None?
    ensures DataPass(file, img, segs).failed.None?
    decreases |segs|
  {
    hide LoadData, DataVerdict, CursorAfter;
    if segs != [] {
      DataVerdictIs(file, img, segs[0]);
      assert DataVerdict(segs[0], Place(segs, 0, img.next)).None?;
      PlacesShift(segs, img.next);
      hide Place;
      DataPassSucceeds(file, LoadData(file, img, segs[0]).img, segs[1..]);
    }
  }

  lemma PlacesShift(segs: seq<Segment>, next: nat)
    requires segs != []
    ensures
      forall j :: 0 <= j < |segs| - 1 ==>
        segs[1..][j] == segs[j + 1] && Place(segs[1..], j, CursorAfter(segs[0], next)) == Place(segs, j + 1, next)
  {
    hide CursorAfter;
    forall j | 0 <= j < |segs| - 1
      ensures segs[1..][j] == segs[j + 1] && Place(segs[1..], j, CursorAfter(segs[0], next)) == Place(segs, j + 1, next)
    {
      CursorShifts(segs, j, next);
    }
  }

  /**
   A load with sound headers fails exactly if a read-only segment does not fit, none exists, a writable
   segment or its image does not fit, or the entry point lies outside flash.
   */
  lemma LoadVerdict(file: seq<Byte>, flash: seq<Byte>, sram: seq<Byte>, segs: seq<Segment>, stop: nat)
    requires |flash| == 0x8000 && |sram| == 0x900
    requires HeaderRejection(file).None? && |file| >= 52 && Segments(file) == segs && IsTextStop(segs, stop)
    ensures
      LoadFile(file, flash, sram).failed.None? <==>
      && (forall i :: 0 <= i < |segs| ==> TextVerdict(segs[i]).None?)
      && (exists i :: 0 <= i < |segs| && ReadOnly(segs[i]))
      && (forall i :: 0 <= i < |segs| ==> DataVerdict(segs[i], Place(segs, i, stop)).None?)
      && HeaderOf(file).entry < 0x8000
  {
    hide HeaderRejection, TextPass, DataPass, Segments, TextVerdict, DataVerdict, Place, ReadOnly, TextPatches,
         TextPlaced, HasText, TextEnd, Fit, ApplyAll, IsTextStop;
    var start := Image(flash, sram, 0, false);
    TextPassExact(file, start, segs);
    StopIsTextEnd(segs, stop);
    var text := TextPass(file, start, segs).img;
    var i := LeastText(segs);
    if i < |segs| {
      TextPassFails(file, start, segs, i);
    } else {
      TextPassSucceeds(file, start, segs);
      var j := LeastData(segs, stop);
      if j < |segs| {
        DataPassFails(file, text, segs, j);
      } else {
        DataPassSucceeds(file, text, segs);
      }
    }
  }

  lemma LeastText(segs: seq<Segment>) returns (n: nat)
    ensures n <= |segs| && forall j :: 0 <= j < n ==> TextVerdict(segs[j]).None?
    ensures n < |segs| ==> TextVerdict(segs[n]).Some?
  {
    hide TextVerdict;
    n := 0;
    while n < |segs| && TextVerdict(segs[n]).None?
      invariant n <= |segs| && forall j :: 0 <= j < n ==> TextVerdict(segs[j]).None?
    {
      n := n + 1;
    }
  }

  lemma LeastData(segs: seq<Segment>, stop: nat) returns (n: nat)
    ensures n <= |segs| && forall j :: 0 <= j < n ==> DataVerdict(segs[j], Place(segs, j, stop)).None?
    ensures n < |segs| ==> DataVerdict(segs[n], Place(segs, n, stop)).Some?
  {
    hide DataVerdict, Place;
    n := 0;
    while n < |segs| && DataVerdict(segs[n], Place(segs, n, stop)).None?
      invariant n <= |segs| && forall j :: 0 <= j < n ==> DataVerdict(segs[j], Place(segs, j, stop)).None?
    {
      n := n + 1;
    }
  }
}
