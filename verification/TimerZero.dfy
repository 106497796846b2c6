/**
 Timer/Counter 0. The peripheral drains its prescaler accumulator one timer tick at a time; the
 function Ticked is the closed form that the loop is proved to compute.
 */
module TimerZero {
  import opened Bits

  datatype Timer = Timer(tccr0a: Byte, tccr0b: Byte, tcnt0: Byte, ocr0a: Byte, ocr0b: Byte,
                         timsk0: Byte, tifr0: Byte, acc: Word)

  const RESET := Timer(0, 0, 0, 0, 0, 0, 0, 0)

  // TIFR0 and TIMSK0 bit positions.
  const TOV0 := 0
  const OCF0A := 1
  const OCF0B := 2

  const WGM_CTC := 2

  /** 0 when the clock is stopped. */
  function Divider(tccr0b: Byte): (r: nat)
    ensures r <= 1024
  {
    match tccr0b % 8
    case 1 => 1
    case 2 => 8
    case 3 => 64
    case 4 => 256
    case 5 => 1024
    case _ => 0
  }

  function Wgm(t: Timer): nat {
    (t.tccr0b / 8 % 2) * 4 + (t.tccr0a / 2 % 2) * 2 + t.tccr0a % 2
  }

  function Top(t: Timer): Byte {
    if Wgm(t) == WGM_CTC then t.ocr0a else 0xFF
  }

  // ------------------------------------------------------------------ the closed form

  /** TCNT0 after k timer ticks. Above TOP (possible in CTC only) the first tick resets it. */
  function CountAfter(t: Timer, k: nat): Byte {
    var period := Top(t) + 1;
    if t.tcnt0 <= Top(t) then (t.tcnt0 + k) % period
    else if k == 0 then t.tcnt0
    else (k - 1) % period
  }

  /** The counter wraps from 0xFF to 0 within n ticks, in a mode that reports it. */
  predicate OverflowsWithin(t: Timer, n: nat) {
    Wgm(t) != WGM_CTC && t.tcnt0 + n > 0xFF
  }

  /** One of the n ticks starts from a counter equal to the compare register. */
  predicate MatchesWithin(t: Timer, n: nat, ocr: Byte) {
    exists k: nat | k < n :: CountAfter(t, k) == ocr
  }

  function FlagIf(flags: Byte, bit: nat, on: bool): Byte
    requires bit < 8
  {
    if on then SetBit8(flags, bit, true) else flags
  }

  function FlagsAfter(t: Timer, n: nat): Byte {
    FlagIf(FlagIf(FlagIf(t.tifr0, TOV0, OverflowsWithin(t, n)),
                  OCF0A, MatchesWithin(t, n, t.ocr0a)),
           OCF0B, MatchesWithin(t, n, t.ocr0b))
  }

  /** State after n ticks that leave `acc` cycles in the prescaler. */
  function AfterTicks(t: Timer, n: nat, acc: Word): Timer {
    t.(tcnt0 := CountAfter(t, n), tifr0 := FlagsAfter(t, n), acc := acc)
  }

  /** The effect of `cycles` CPU cycles. The accumulator is 16 bits wide. */
  function Ticked(t: Timer, cycles: Word): Timer {
    var div := Divider(t.tccr0b);
    if div == 0 then t
    else
      var total := Wrap16(t.acc + cycles);
      AfterTicks(t, total / div, total % div)
  }

  // ------------------------------------------------------------------ registers

  /** Offset 0x35 is TIFR0, 0x44-0x48 the counter registers and 0x6E TIMSK0, each less 0x20. */
  function ReadRegister(t: Timer, ioAddr: Byte): Option<Byte> {
    match ioAddr
    case 0x24 => Some(t.tccr0a)
    case 0x25 => Some(t.tccr0b)
    case 0x26 => Some(t.tcnt0)
    case 0x27 => Some(t.ocr0a)
    case 0x28 => Some(t.ocr0b)
    case 0x4E => Some(t.timsk0)
    case 0x15 => Some(t.tifr0)
    case _ => None
  }

  /** Writing TCNT0 also resets the prescaler; ones written to TIFR0 clear flags. */
  function WriteRegister(t: Timer, ioAddr: Byte, value: Byte): Option<Timer> {
    match ioAddr
    case 0x24 => Some(t.(tccr0a := value))
    case 0x25 => Some(t.(tccr0b := value))
    case 0x26 => Some(t.(tcnt0 := value, acc := 0))
    case 0x27 => Some(t.(ocr0a := value))
    case 0x28 => Some(t.(ocr0b := value))
    case 0x4E => Some(t.(timsk0 := value))
    case 0x15 => Some(t.(tifr0 := AndNot(t.tifr0, value)))
    case _ => None
  }

  /** Interrupt `bit` is both enabled and flagged. */
  predicate Pending(t: Timer, bit: nat) {
    Bit(t.timsk0, bit) && Bit(t.tifr0, bit)
  }

  function Ack(t: Timer, bit: nat): Timer
    requires bit < 8
  {
    t.(tifr0 := SetBit8(t.tifr0, bit, false))
  }

  // ------------------------------------------------------------------ the peripheral

  class Timer0 {
    var tccr0a: Byte
    var tccr0b: Byte
    var tcnt0: Byte
    var ocr0a: Byte
    var ocr0b: Byte
    var timsk0: Byte
    var tifr0: Byte
    var prescalerAcc: Word

    function View(): Timer
      reads this
    {
      Timer(tccr0a, tccr0b, tcnt0, ocr0a, ocr0b, timsk0, tifr0, prescalerAcc)
    }

    constructor ()
      ensures View() == RESET
    {
      tccr0a, tccr0b, tcnt0, ocr0a := 0, 0, 0, 0;
      ocr0b, timsk0, tifr0, prescalerAcc := 0, 0, 0, 0;
    }

    method Reset()
      modifies this
      ensures View() == RESET
    {
      tccr0a, tccr0b, tcnt0, ocr0a := 0, 0, 0, 0;
      ocr0b, timsk0, tifr0, prescalerAcc := 0, 0, 0, 0;
    }

    /** Drains the accumulator one timer tick at a time. */
    method Tick(cycles: Word)
      modifies this
      ensures View() == Ticked(old(View()), cycles)
    {
      hide CountAfter, FlagsAfter;
      ghost var start := View();
      var div := Divider(tccr0b);
      if div == 0 {
        return;
      }
      var mode := Wgm(View());
      prescalerAcc := Wrap16(prescalerAcc + cycles);
      var top := if mode == WGM_CTC then ocr0a else 0xFF;
      ghost var total := prescalerAcc;
      ghost var n: nat := 0;
      NoTicksYet(start, prescalerAcc);
      while prescalerAcc >= div
        invariant total == n * div + prescalerAcc
        invariant View() == AfterTicks(start, n, prescalerAcc)
      {
        prescalerAcc := prescalerAcc - div;
        var prev := tcnt0;
        var next := tcnt0 + 1;
        if next > top {
          tcnt0 := 0;
          if mode != WGM_CTC {
            tifr0 := SetBit8(tifr0, TOV0, true);
          }
        } else {
          tcnt0 := next;
        }
        if prev == ocr0a {
          tifr0 := SetBit8(tifr0, OCF0A, true);
        }
        if prev == ocr0b {
          tifr0 := SetBit8(tifr0, OCF0B, true);
        }
        OneMoreTick(start, n, prescalerAcc);
        n := n + 1;
      }
      ModUnique(total, div, n, prescalerAcc);
    }

    method Read(ioAddr: Byte) returns (r: Option<Byte>)
      ensures r == ReadRegister(View(), ioAddr)
    {
      match ioAddr
      case 0x24 => r := Some(tccr0a);
      case 0x25 => r := Some(tccr0b);
      case 0x26 => r := Some(tcnt0);
      case 0x27 => r := Some(ocr0a);
      case 0x28 => r := Some(ocr0b);
      case 0x4E => r := Some(timsk0);
      case 0x15 => r := Some(tifr0);
      case _ => r := None;
    }

    method Write(ioAddr: Byte, value: Byte) returns (taken: bool)
      modifies this
      ensures
        match WriteRegister(old(View()), ioAddr, value)
        case Some(t) => taken && View() == t
        case None => !taken && View() == old(View())
    {
      taken := true;
      match ioAddr
      case 0x24 => tccr0a := value;
      case 0x25 => tccr0b := value;
      case 0x26 => tcnt0, prescalerAcc := value, 0;
      case 0x27 => ocr0a := value;
      case 0x28 => ocr0b := value;
      case 0x4E => timsk0 := value;
      case 0x15 => tifr0 := AndNot(tifr0, value);
      case _ => taken := false;
    }

    method AckFlag(bit: nat)
      requires bit < 8
      modifies this
      ensures View() == Ack(old(View()), bit)
    {
      tifr0 := SetBit8(tifr0, bit, false);
    }
  }

  // ------------------------------------------------------------------ the loop, step by step

  lemma NoTicksYet(t: Timer, acc: Word)
    ensures AfterTicks(t, 0, acc) == t.(acc := acc)
  {
    if t.tcnt0 <= Top(t) {
      ModUnique(t.tcnt0, Top(t) + 1, 0, t.tcnt0);
    }
  }

  lemma CountStep(t: Timer, n: nat)
    ensures
      var prev := CountAfter(t, n);
      && CountAfter(t, n + 1) == (if prev + 1 > Top(t) then 0 else prev + 1)
      && (Wgm(t) != WGM_CTC ==> (OverflowsWithin(t, n + 1) <==> OverflowsWithin(t, n) || prev + 1 > 0xFF))
  {
    var period := Top(t) + 1;
    if t.tcnt0 <= Top(t) {
      ModSuccessor(t.tcnt0 + n, period);
      if t.tcnt0 + n <= Top(t) {
        ModUnique(t.tcnt0 + n, period, 0, t.tcnt0 + n);
      }
    } else if n == 0 {
      ModUnique(0, period, 0, 0);
    } else {
      ModSuccessor(n - 1, period);
    }
  }

  lemma ModSuccessor(a: nat, m: nat)
    requires m > 0
    ensures (a + 1) % m == if a % m + 1 == m then 0 else a % m + 1
  {
    var q, r := a / m, a % m;
    assert a == m * q + r;
    if r + 1 == m {
      assert a + 1 == (q + 1) * m by { MulDistributes(q, 1, m); }
      ModUnique(a + 1, m, q + 1, 0);
    } else {
      ModUnique(a + 1, m, q, r + 1);
    }
  }

  lemma MatchesStep(t: Timer, n: nat, ocr: Byte)
    ensures MatchesWithin(t, n + 1, ocr) <==> MatchesWithin(t, n, ocr) || CountAfter(t, n) == ocr
  {
  }

  /** One iteration of the drain loop takes the closed form for n ticks to the one for n + 1. */
  lemma OneMoreTick(t: Timer, n: nat, acc: Word)
    ensures
      var now := AfterTicks(t, n, acc);
      var wraps := now.tcnt0 + 1 > Top(t);
      AfterTicks(t, n + 1, acc) == now.(
        tcnt0 := if wraps then 0 else now.tcnt0 + 1,
        tifr0 := FlagIf(FlagIf(FlagIf(now.tifr0, TOV0, wraps && Wgm(t) != WGM_CTC),
                               OCF0A, now.tcnt0 == t.ocr0a),
                        OCF0B, now.tcnt0 == t.ocr0b))
  {
    CountStep(t, n);
    MatchesStep(t, n, t.ocr0a);
    MatchesStep(t, n, t.ocr0b);
    var now := AfterTicks(t, n, acc);
    var wraps := now.tcnt0 + 1 > Top(t);
    var flags := FlagIf(FlagIf(FlagIf(now.tifr0, TOV0, wraps && Wgm(t) != WGM_CTC),
                               OCF0A, now.tcnt0 == t.ocr0a),
                        OCF0B, now.tcnt0 == t.ocr0b);
    forall j: nat
      ensures Bit(FlagsAfter(t, n + 1), j) == Bit(flags, j)
    {
    }
    BitsDetermine(FlagsAfter(t, n + 1), flags);
  }
}
