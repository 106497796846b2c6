/** What the closed form of Timer0 implies: flags without quantifiers, and indifference to batching. */
module TimerLaws {
  import opened Bits
  import opened TimerZero

  // ------------------------------------------------------------------ compare flags, exactly

  /**
   With TCNT0 at or below TOP, a compare register is met within n ticks exactly when it is at most
   TOP and its distance ahead of TCNT0 around the period is below n.
   */
  lemma MatchDistance(t: Timer, n: nat, ocr: Byte)
    requires t.tcnt0 <= Top(t)
    ensures MatchesWithin(t, n, ocr) <==> ocr <= Top(t) && (ocr - t.tcnt0) % (Top(t) + 1) < n
  {
    var period := Top(t) + 1;
    if MatchesWithin(t, n, ocr) {
      var k: nat :| k < n && CountAfter(t, k) == ocr;
      DistanceAhead(t.tcnt0, ocr, k, period);
    }
    if ocr <= Top(t) && (ocr - t.tcnt0) % period < n {
      var k := (ocr - t.tcnt0) % period;
      ReachedAtDistance(t.tcnt0, ocr, period);
      assert CountAfter(t, k) == ocr;
    }
  }

  /** The distance to a value that is met after k steps is at most k. */
  lemma DistanceAhead(a: nat, b: nat, k: nat, m: nat)
    requires m > 0 && a < m && (a + k) % m == b
    ensures b < m && (b - a) % m <= k
  {
    var q := (a + k) / m;
    assert a + k == m * q + b;
    if b >= a {
      ModUnique(b - a, m, 0, b - a);
      MulSteps(m, q);
    } else {
      ModUnique(b - a, m, -1, b - a + m);
      MulSteps(m, q);
    }
  }

  lemma ReachedAtDistance(a: nat, b: nat, m: nat)
    requires a < m && b < m
    ensures (a + (b - a) % m) % m == b
  {
    if b >= a {
      ModUnique(b - a, m, 0, b - a);
      ModUnique(b, m, 0, b);
    } else {
      ModUnique(b - a, m, -1, b - a + m);
      ModUnique(b + m, m, 1, b);
    }
  }

  /** Above TOP (CTC only) the first tick leaves the stray value and counting restarts from zero. */
  lemma MatchAboveTop(t: Timer, n: nat, ocr: Byte)
    requires t.tcnt0 > Top(t)
    ensures MatchesWithin(t, n, ocr) <==> (n > 0 && ocr == t.tcnt0) || (ocr <= Top(t) && ocr + 1 < n)
  {
    var period := Top(t) + 1;
    if MatchesWithin(t, n, ocr) {
      var k: nat :| k < n && CountAfter(t, k) == ocr;
      if k > 0 {
        DistanceAhead(0, ocr, k - 1, period);
        ModUnique(ocr, period, 0, ocr);
      }
    }
    if n > 0 && ocr == t.tcnt0 {
      assert CountAfter(t, 0) == ocr;
    }
    if ocr <= Top(t) && ocr + 1 < n {
      ModUnique(ocr, period, 0, ocr);
      assert CountAfter(t, ocr + 1) == ocr;
    }
  }

  /** CTC with OCR0A 3 and the counter at 5: the next tick leads to 0, not to 6. */
  lemma StrayCounterResets()
    ensures
      var t := Timer(2, 1, 5, 3, 0, 0, 0, 0);
      && Wgm(t) == WGM_CTC && t.tcnt0 > t.ocr0a
      && Ticked(t, 1).tcnt0 == 0 && Ticked(t, 5).tcnt0 == 0 && !OverflowsWithin(t, 1)
  {
    hide FlagsAfter, SetBit8;
  }

  // ------------------------------------------------------------------ batching

  lemma {:induction false} CountCompose(t: Timer, t': Timer, n: nat, k: nat)
    requires t' == AfterTicks(t, n, t'.acc)
    ensures CountAfter(t', k) == CountAfter(t, n + k)
  {
    if k == 0 {
      NoTicksYet(t', t'.acc);
    } else {
      CountCompose(t, t', n, k - 1);
      CountStep(t', k - 1);
      CountStep(t, n + k - 1);
    }
  }

  lemma MatchesCompose(t: Timer, t': Timer, n: nat, k: nat, ocr: Byte)
    requires t' == AfterTicks(t, n, t'.acc)
    ensures MatchesWithin(t, n + k, ocr) <==> MatchesWithin(t, n, ocr) || MatchesWithin(t', k, ocr)
  {
    forall j: nat
      ensures CountAfter(t', j) == CountAfter(t, n + j)
    {
      CountCompose(t, t', n, j);
    }
    if MatchesWithin(t, n + k, ocr) {
      var j: nat :| j < n + k && CountAfter(t, j) == ocr;
      if j >= n {
        assert CountAfter(t', j - n) == ocr;
      }
    }
    if MatchesWithin(t', k, ocr) {
      var j: nat :| j < k && CountAfter(t', j) == ocr;
      assert CountAfter(t, n + j) == ocr;
    }
  }

  lemma OverflowsCompose(t: Timer, t': Timer, n: nat, k: nat)
    requires t' == AfterTicks(t, n, t'.acc)
    ensures OverflowsWithin(t, n + k) <==> OverflowsWithin(t, n) || OverflowsWithin(t', k)
  {
    if Wgm(t) != WGM_CTC && t.tcnt0 + n <= 0xFF {
      ModUnique(t.tcnt0 + n, 0x100, 0, t.tcnt0 + n);
    }
  }

  /** n ticks and then k ticks are n + k ticks, on the counter and on all three flags. */
  lemma TicksCompose(t: Timer, n: nat, acc: Word, k: nat, acc': Word)
    ensures AfterTicks(AfterTicks(t, n, acc), k, acc') == AfterTicks(t, n + k, acc')
  {
    var t' := AfterTicks(t, n, acc);
    CountCompose(t, t', n, k);
    MatchesCompose(t, t', n, k, t.ocr0a);
    MatchesCompose(t, t', n, k, t.ocr0b);
    OverflowsCompose(t, t', n, k);
    forall j: nat
      ensures Bit(FlagsAfter(t', k), j) == Bit(FlagsAfter(t, n + k), j)
    {
    }
    BitsDetermine(FlagsAfter(t', k), FlagsAfter(t, n + k));
  }

  lemma RemainderBelow(a: nat, div: nat)
    requires div > 0
    ensures a % div < div
  {
  }

  /** Whole ticks and left-over cycles add up. */
  lemma SplitTicks(acc: nat, a: nat, b: nat, div: nat)
    requires div > 0
    ensures (acc + a) / div + ((acc + a) % div + b) / div == (acc + a + b) / div
    ensures ((acc + a) % div + b) % div == (acc + a + b) % div
  {
    var n, r := (acc + a) / div, (acc + a) % div;
    var k, r' := (r + b) / div, (r + b) % div;
    assert acc + a + b == (n + k) * div + r' by {
      MulDistributes(n, k, div);
      assert acc + a == n * div + r && r + b == k * div + r';
    }
    ModUnique(acc + a + b, div, n + k, r');
  }

  lemma Quotient(a: nat, div: nat) returns (q: nat, r: nat)
    requires div > 0
    ensures a == q * div + r && r < div && r <= a
  {
    q, r := a / div, a % div;
    MulSteps(div, q);
  }

  lemma TickedIs(t: Timer, cycles: Word, n: nat, r: nat)
    requires var div := Divider(t.tccr0b); div > 0 && t.acc + cycles == n * div + r && r < div
    requires t.acc + cycles < 0x1_0000
    ensures Ticked(t, cycles) == AfterTicks(t, n, r)
  {
    hide AfterTicks;
    ModUnique(t.acc + cycles, Divider(t.tccr0b), n, r);
    assert Wrap16(t.acc + cycles) == t.acc + cycles;
  }

  /** Tick(a);Tick(b) is Tick(a+b) on counter, accumulator and flags while the sum fits 16 bits. */
  lemma BatchingIsIrrelevant(t: Timer, a: Word, b: Word)
    requires t.acc + a + b < 0x1_0000
    ensures Ticked(Ticked(t, a), b) == Ticked(t, a + b)
  {
    var div := Divider(t.tccr0b);
    if div != 0 {
      hide Ticked, AfterTicks, Divider;
      var n, r := Quotient(t.acc + a, div);
      var k, r' := Quotient(r + b, div);
      AfterTicksKeeps(t, n, r);
      TickedIs(t, a, n, r);
      TickedIs(Ticked(t, a), b, k, r');
      MulDistributes(n, k, div);
      TickedIs(t, a + b, n + k, r');
      TicksCompose(t, n, r, k, r');
    }
  }

  lemma AfterTicksKeeps(t: Timer, n: nat, acc: Word)
    ensures AfterTicks(t, n, acc).acc == acc && AfterTicks(t, n, acc).tccr0b == t.tccr0b
  {
  }

  /** The accumulator stays below the largest divider, so that no single step can wrap it. */
  lemma AccumulatorStaysSmall(t: Timer, cycles: Word)
    requires t.acc < 1024
    ensures Ticked(t, cycles).acc < 1024
  {
  }
}
