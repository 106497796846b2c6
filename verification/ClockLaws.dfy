/**
 Timer0 from its register bits: the clock selects, the top of the count, and in integers what any
 number of cycles does to the counter, the prescaler and each flag.
 */
module ClockLaws {
  import opened Bits
  import opened TimerZero
  import opened TimerLaws

  /** CPU cycles in a timer tick, by CS02, CS01 and CS00. */
  function CyclesPerTick(select: nat): (r: nat)
    requires 1 <= select <= 5
    ensures r > 0
  {
    if select == 1 then 1
    else if select == 2 then 8
    else if select == 3 then 64
    else if select == 4 then 256
    else 1024
  }

  /** WGM02, WGM01 and WGM00 read 0, 1, 0. */
  predicate ClearsOnCompare(t: Timer) {
    t.tccr0b / 8 % 2 == 0 && t.tccr0a / 2 % 2 == 1 && t.tccr0a % 2 == 0
  }

  function CountsTo(t: Timer): Byte {
    if ClearsOnCompare(t) then t.ocr0a else 255
  }

  lemma TopIs(t: Timer)
    ensures Top(t) == CountsTo(t) && (Wgm(t) == WGM_CTC <==> ClearsOnCompare(t))
  {
  }

  lemma DividerIs(tccr0b: Byte)
    ensures
      var select := tccr0b % 8;
      Divider(tccr0b) == if 1 <= select <= 5 then CyclesPerTick(select) else 0
  {
  }

  /** Clock selects 0, 6 and 7 stop the timer. */
  lemma StoppedClock(t: Timer, cycles: Word)
    requires t.tccr0b % 8 in {0, 6, 7}
    ensures Ticked(t, cycles) == t
  {
    DividerIs(t.tccr0b);
  }

  /** The count after n ticks. */
  function CountTo(t: Timer, n: nat): Byte {
    var top := CountsTo(t);
    if t.tcnt0 <= top then (t.tcnt0 + n) % (top + 1)
    else if n == 0 then t.tcnt0
    else (n - 1) % (top + 1)
  }

  /** The count stood at `ocr` when one of the n ticks came. */
  predicate Meets(t: Timer, n: nat, ocr: Byte) {
    var top := CountsTo(t);
    if t.tcnt0 <= top then ocr <= top && (ocr - t.tcnt0) % (top + 1) < n
    else (n > 0 && ocr == t.tcnt0) || (ocr <= top && ocr + 1 < n)
  }

  /**
   What cycles do with a running clock: the ticks are the cycles so far, in 16 bits, divided by the
   rate, the remainder waits in the prescaler, TOV0 is set by a wrap at 255 outside CTC mode, OCF0A and OCF0B by
   the compare registers, and everything else stays.
   */
  lemma RunningClock(t: Timer, cycles: Word)
    requires 1 <= t.tccr0b % 8 <= 5
    ensures
      var rate, total := CyclesPerTick(t.tccr0b % 8), (t.acc + cycles) % 65536;
      var n, after := total / rate, Ticked(t, cycles);
      && after == t.(tcnt0 := CountTo(t, n), acc := total % rate, tifr0 := after.tifr0)
      && Bit(after.tifr0, 0) == (Bit(t.tifr0, 0) || (!ClearsOnCompare(t) && t.tcnt0 + n > 255))
      && Bit(after.tifr0, 1) == (Bit(t.tifr0, 1) || Meets(t, n, t.ocr0a))
      && Bit(after.tifr0, 2) == (Bit(t.tifr0, 2) || Meets(t, n, t.ocr0b))
      && forall j: nat | j > 2 :: Bit(after.tifr0, j) == Bit(t.tifr0, j)
  {
    var rate := CyclesPerTick(t.tccr0b % 8);
    DividerIs(t.tccr0b);
    hide CyclesPerTick, Divider;
    var n := (t.acc + cycles) % 65536 / rate;
    TopIs(t);
    MeetsIs(t, n, t.ocr0a);
    MeetsIs(t, n, t.ocr0b);
    hide CountsTo, MatchesWithin, Meets;
  }

  lemma MeetsIs(t: Timer, n: nat, ocr: Byte)
    ensures MatchesWithin(t, n, ocr) == Meets(t, n, ocr)
  {
    TopIs(t);
    if t.tcnt0 <= Top(t) {
      MatchDistance(t, n, ocr);
    } else {
      MatchAboveTop(t, n, ocr);
    }
  }

  /** From an empty prescaler and below the top: no step in fewer cycles than the rate, one step in exactly as many. */
  lemma OneTick(t: Timer, rate: nat, cycles: Word)
    requires (t.tccr0b % 8, rate) in {(1, 1), (2, 8), (3, 64), (4, 256), (5, 1024)}
    requires t.acc == 0 && t.tcnt0 < CountsTo(t)
    ensures cycles == rate ==> Ticked(t, cycles).tcnt0 == t.tcnt0 + 1
    ensures cycles < rate ==> Ticked(t, cycles).tcnt0 == t.tcnt0
  {
    hide Ticked, CountsTo, Meets, ClearsOnCompare;
    RunningClock(t, cycles);
    if cycles <= rate {
      var n := if cycles == rate then 1 else 0;
      ModUnique(cycles, rate, n, if cycles == rate then 0 else cycles);
      ModUnique(t.tcnt0 + n, CountsTo(t) + 1, 0, t.tcnt0 + n);
    }
  }
}
