/** The application in main(): enable the GPIOC clock, make PC13 a push-pull
    output, then toggle PC13 forever. Registers are plain 32-bit values. */
module Application {

  /** RCC_APB2ENR bit 4 (IOPCEN): clock gate of GPIO port C. */
  const IopcEn: bv32 := 1 << 4

  /** GPIOC_CRH bits 20..23: MODE13 and CNF13, the 4-bit field of pin PC13. */
  const Pc13Field: bv32 := 0xF << 20

  /** The value written into PC13's field: 0b0010, output push-pull at 2 MHz. */
  const Pc13OutputMode: bv32 := 0x2 << 20

  /** GPIOC_ODR bit 13: output level of PC13, the LED. */
  const Pc13Level: bv32 := 1 << 13

  /** Bit `i` (0..31) of register value `r`. */
  function Bit(r: bv32, i: bv5): bool
  {
    (r >> i) & 1 == 1
  }

  /** `RCC_APB2ENR |= (1 << 4)`: IOPCEN is set, every other bit is kept. */
  function WithGpiocClock(r: bv32): (e: bv32)
    ensures e & IopcEn == IopcEn
    ensures e & !IopcEn == r & !IopcEn
  {
    r | IopcEn
  }

  /** `GPIOC_CRH &= ~(0xF << 20)`: PC13's field is cleared, every other bit is kept. */
  function WithPc13Cleared(r: bv32): (c: bv32)
    ensures c & Pc13Field == 0
    ensures c & !Pc13Field == r & !Pc13Field
  {
    r & !Pc13Field
  }

  /** `GPIOC_CRH |= (0x2 << 20)`: bit 21 is set, every other bit is kept. */
  function WithPc13ModeSet(r: bv32): (s: bv32)
    ensures s & Pc13Field == (r & Pc13Field) | Pc13OutputMode
    ensures s & !Pc13Field == r & !Pc13Field
  {
    r | Pc13OutputMode
  }

  /** Bit by bit: the set step forces bit 21 to 1 and keeps the rest. */
  lemma WithPc13ModeSetBits(r: bv32)
    ensures forall i: bv5 :: Bit(WithPc13ModeSet(r), i) == (i == 21 || Bit(r, i))
  {
  }

  /** The two CRH steps together: PC13's field holds 0b0010 whatever it held
      before, and the fields of the other pins are kept. */
  function WithPc13Output(r: bv32): (c: bv32)
    ensures c & Pc13Field == Pc13OutputMode
    ensures c & !Pc13Field == r & !Pc13Field
  {
    WithPc13ModeSet(WithPc13Cleared(r))
  }

  /** `GPIOC_ODR ^= (1 << 13)`: PC13's level is inverted, every other bit is kept. */
  function WithLedToggled(r: bv32): (t: bv32)
    ensures t & Pc13Level == (r & Pc13Level) ^ Pc13Level
    ensures t & !Pc13Level == r & !Pc13Level
  {
    r ^ Pc13Level
  }

  /** GPIOC_ODR after `n` passes of the blink loop. */
  function Blinked(r: bv32, n: nat): (t: bv32)
    ensures t == r || t == WithLedToggled(r)
    decreases n
  {
    if n == 0 then r
    else
      WithLedToggledTwice(r);
      WithLedToggled(Blinked(r, n - 1))
  }

  /** Bit by bit: enabling the clock forces bit 4 to 1 and keeps the rest. */
  lemma WithGpiocClockBits(r: bv32)
    ensures forall i: bv5 :: Bit(WithGpiocClock(r), i) == (i == 4 || Bit(r, i))
  {
  }

  /** Enabling the clock a second time changes nothing. */
  lemma WithGpiocClockIdempotent(r: bv32)
    ensures WithGpiocClock(WithGpiocClock(r)) == WithGpiocClock(r)
  {
  }

  /** Bit by bit: the clear step zeroes bits 20..23 and keeps the rest. */
  lemma WithPc13ClearedBits(r: bv32)
    ensures forall i: bv5 :: Bit(WithPc13Cleared(r), i) == (!(20 <= i < 24) && Bit(r, i))
  {
  }

  /** Bit by bit: after clear-then-set, bits 23..20 read 0010 and the rest are kept. */
  lemma WithPc13OutputBits(r: bv32)
    ensures forall i: bv5 ::
      Bit(WithPc13Output(r), i) == if 20 <= i < 24 then i == 21 else Bit(r, i)
  {
  }

  /** The configured CRH value depends on the other pins' fields only: two
      registers give the same result exactly when they agree outside bits 20..23. */
  lemma WithPc13OutputIgnoresOldField(r1: bv32, r2: bv32)
    ensures WithPc13Output(r1) == WithPc13Output(r2) <==> r1 & !Pc13Field == r2 & !Pc13Field
  {
  }

  /** Bit by bit: a toggle inverts bit 13 and keeps the rest. */
  lemma WithLedToggledBits(r: bv32)
    ensures forall i: bv5 ::
      Bit(WithLedToggled(r), i) == if i == 13 then !Bit(r, i) else Bit(r, i)
  {
  }

  /** Two toggles restore the output register. */
  lemma WithLedToggledTwice(r: bv32)
    ensures WithLedToggled(WithLedToggled(r)) == r
  {
  }

  /** After `n` passes of the loop, ODR differs from its start exactly in bit
      13 and exactly when `n` is odd. */
  lemma {:induction false} BlinkedParity(r: bv32, n: nat)
    ensures Blinked(r, n) == if n % 2 == 0 then r else WithLedToggled(r)
    decreases n
  {
    if n > 0 {
      BlinkedParity(r, n - 1);
      if n % 2 == 0 {
        WithLedToggledTwice(r);
      }
    }
  }

  /** The register values worked through by hand for this board. */
  lemma RegisterScenario()
    ensures WithGpiocClock(0x0000_0000) == 0x0000_0010
    ensures WithPc13Output(0xFFFF_FFFF) == 0xFF2F_FFFF
    ensures WithLedToggled(0x0000_2000) == 0x0000_0000
    ensures WithLedToggled(0x0000_0000) == 0x0000_2000
  {
  }

  /** The three memory-mapped registers main() writes. */
  class Registers {
    var rccApb2enr: bv32
    var gpiocCrh: bv32
    var gpiocOdr: bv32

    constructor (apb2enr: bv32, crh: bv32, odr: bv32)
      ensures rccApb2enr == apb2enr && gpiocCrh == crh && gpiocOdr == odr
    {
      rccApb2enr, gpiocCrh, gpiocOdr := apb2enr, crh, odr;
    }

    /** STEP 1: turn on the clock of GPIO port C. */
    method EnableClock()
      modifies this
      ensures rccApb2enr == WithGpiocClock(old(rccApb2enr))
      ensures gpiocCrh == old(gpiocCrh) && gpiocOdr == old(gpiocOdr)
    {
      rccApb2enr := rccApb2enr | IopcEn;
    }

    /** STEP 2, first write: clear PC13's configuration field. */
    method ClearPc13()
      modifies this
      ensures gpiocCrh == WithPc13Cleared(old(gpiocCrh))
      ensures rccApb2enr == old(rccApb2enr) && gpiocOdr == old(gpiocOdr)
    {
      gpiocCrh := gpiocCrh & !Pc13Field;
    }

    /** STEP 2, second write: OR the output mode 0b0010 into PC13's field. */
    method SetPc13Mode()
      modifies this
      ensures gpiocCrh == WithPc13ModeSet(old(gpiocCrh))
      ensures rccApb2enr == old(rccApb2enr) && gpiocOdr == old(gpiocOdr)
    {
      gpiocCrh := gpiocCrh | Pc13OutputMode;
    }

    /** STEP 2: make PC13 a push-pull output. */
    method ConfigurePc13()
      modifies this
      ensures gpiocCrh == WithPc13Output(old(gpiocCrh))
      ensures gpiocCrh & Pc13Field == Pc13OutputMode
      ensures rccApb2enr == old(rccApb2enr) && gpiocOdr == old(gpiocOdr)
    {
      ClearPc13();
      SetPc13Mode();
    }

    /** STEP 3: one pass of the blink loop (the delay has no effect on registers). */
    method Blink()
      modifies this
      ensures gpiocOdr == WithLedToggled(old(gpiocOdr))
      ensures rccApb2enr == old(rccApb2enr) && gpiocCrh == old(gpiocCrh)
    {
      gpiocOdr := gpiocOdr ^ Pc13Level;
    }

    /** main() through its first `blinks` passes of the endless loop. */
    method Run(blinks: nat)
      modifies this
      ensures rccApb2enr == WithGpiocClock(old(rccApb2enr))
      ensures gpiocCrh == WithPc13Output(old(gpiocCrh))
      ensures gpiocOdr == Blinked(old(gpiocOdr), blinks)
      ensures gpiocOdr == if blinks % 2 == 0 then old(gpiocOdr) else WithLedToggled(old(gpiocOdr))
    {
      EnableClock();
      ConfigurePc13();
      var n := 0;
      while n < blinks
        invariant n <= blinks
        invariant rccApb2enr == WithGpiocClock(old(rccApb2enr))
        invariant gpiocCrh == WithPc13Output(old(gpiocCrh))
        invariant gpiocOdr == Blinked(old(gpiocOdr), n)
      {
        Blink();
        n := n + 1;
      }
      BlinkedParity(old(gpiocOdr), blinks);
    }
  }
}
