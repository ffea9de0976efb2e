/** The kernel's timer set-up and timer interrupt: the reload value it
    programs into channel 0 of the programmable interval timer (PIT), the
    tick counter the timer handler advances and the cursor flag it flips,
    and the interrupt vectors of the two chained PICs. Port writes are
    returned as a list instead of being performed. */
module Interrupts {
  import opened Machine

  /** The PIT's input clock in Hz. */
  const PIT_BASE_HZ: int := 1193182
  const PIT_COMMAND_PORT: int := 0x43
  const PIT_CHANNEL0_PORT: int := 0x40
  /** Channel 0, low byte then high byte, mode 3 (square wave), binary. */
  const PIT_MODE: byte := 0x36

  const PIC_1_OFFSET: int := 32
  const PIC_2_OFFSET: int := PIC_1_OFFSET + 8

  /** The hardware interrupts the kernel handles, numbered from the first
      PIC's offset. */
  datatype InterruptIndex = Timer | Keyboard

  /** `InterruptIndex::as_u8`: the vector in the interrupt descriptor
      table. */
  function Vector(i: InterruptIndex): (v: byte)
    ensures PIC_1_OFFSET <= v as int < PIC_2_OFFSET
  {
    match i
    case Timer => PIC_1_OFFSET as byte
    case Keyboard => (PIC_1_OFFSET + 1) as byte
  }

  /** The timer is the first PIC's line 0, the keyboard its line 1, at
      vectors 32 and 33; the second PIC starts at vector 40. */
  lemma VectorsOfThePics()
    ensures Vector(Timer) == 32 && Vector(Keyboard) == 33 && PIC_2_OFFSET == 40
    ensures forall i, j :: Vector(i) == Vector(j) ==> i == j
  {
  }

  /** `clamp`: the nearest value of [lo, hi]. */
  function Clamp(x: int, lo: int, hi: int): (r: int)
    requires lo <= hi
    ensures lo <= r <= hi
    ensures lo <= x <= hi ==> r == x
  {
    if x < lo then lo else if x > hi then hi else x
  }

  /** The reload divisor `init_pit` computes for a target rate: the base
      clock divided by the target (at least 1), clamped to [1, 65535]. */
  function Divisor(targetHz: int): (d: int)
    requires IsU32(targetHz)
    ensures 1 <= d <= U16_MAX
  {
    var hz := if targetHz < 1 then 1 else targetHz;
    Clamp(PIT_BASE_HZ / hz, 1, U16_MAX)
  }

  /** A target of 0 is treated as 1 Hz. */
  lemma DivisorOfZero()
    ensures Divisor(0) == Divisor(1) == U16_MAX
  {
  }

  /** Targets at or above the base clock give the fastest setting. */
  lemma DivisorOfFastTargets(targetHz: int)
    requires IsU32(targetHz) && targetHz >= PIT_BASE_HZ
    ensures Divisor(targetHz) == 1
  {
    var q := PIT_BASE_HZ / targetHz;
    NonNegativeDivision(PIT_BASE_HZ, targetHz);
    if q >= 2 {
      MulMono(2, q, targetHz);
    }
  }

  /** The divisor saturates at 65535 exactly for the targets of 18 Hz and
      below, the rates the 16-bit counter cannot reach. */
  lemma DivisorSaturates(targetHz: int)
    requires IsU32(targetHz)
    ensures Divisor(targetHz) == U16_MAX <==> targetHz <= 18
  {
    if 19 <= targetHz {
      assert PIT_BASE_HZ / targetHz <= PIT_BASE_HZ / 19 by {
        DivisionAntitone(PIT_BASE_HZ, 19, targetHz);
      }
    }
    if 1 <= targetHz <= 18 {
      DivisionAntitone(PIT_BASE_HZ, targetHz, 18);
    }
  }

  lemma DivisionAntitone(n: nat, d1: int, d2: int)
    requires 0 < d1 <= d2
    ensures n / d2 <= n / d1
  {
    var q1, q2 := n / d1, n / d2;
    NonNegativeDivision(n, d1);
    NonNegativeDivision(n, d2);
    MulMono(d1, d2, q2);
    assert q2 * d1 <= n;
    if q2 > q1 {
      MulMono(q1 + 1, q2, d1);
      assert false;
    }
  }

  /** Between the saturated ends the divisor is the quotient, so the
      timer's actual rate, base / divisor, is at least the target and falls
      short of the next divisor's rate: divisor * target <= base <
      (divisor + 1) * target. */
  lemma DivisorIsQuotient(targetHz: int)
    requires 19 <= targetHz <= PIT_BASE_HZ
    ensures Divisor(targetHz) == PIT_BASE_HZ / targetHz
    ensures Divisor(targetHz) * targetHz <= PIT_BASE_HZ < (Divisor(targetHz) + 1) * targetHz
  {
    DivisionAntitone(PIT_BASE_HZ, 19, targetHz);
  }

  /** A faster target never gives a larger divisor. */
  lemma DivisorMonotone(hz1: int, hz2: int)
    requires IsU32(hz1) && IsU32(hz2) && hz1 <= hz2
    ensures Divisor(hz2) <= Divisor(hz1)
  {
    var a := if hz1 < 1 then 1 else hz1;
    var b := if hz2 < 1 then 1 else hz2;
    DivisionAntitone(PIT_BASE_HZ, a, b);
  }

  /** `divisor & 0x00FF` of a u16: its low eight bits. */
  function LowByte(d: int): byte
    requires 0 <= d <= U16_MAX
  {
    (d % 256) as byte
  }

  /** `divisor >> 8` of a u16: its high eight bits. */
  function HighByte(d: int): byte
    requires 0 <= d <= U16_MAX
  {
    (d / 256) as byte
  }

  /** The two data bytes put the divisor back together, so each divisor
      has its own pair of bytes. */
  lemma BytesRecombine(d: int, e: int)
    requires 0 <= d <= U16_MAX && 0 <= e <= U16_MAX
    ensures LowByte(d) as int + 256 * HighByte(d) as int == d
    ensures LowByte(d) == LowByte(e) && HighByte(d) == HighByte(e) ==> d == e
  {
    NonNegativeDivision(d, 256);
    NonNegativeDivision(e, 256);
  }

  datatype PortWrite = PortWrite(port: int, value: byte)

  /** `init_pit`: the writes it issues, in order: the mode byte to the
      command port, then the divisor's low byte and its high byte to
      channel 0, which together give the divisor. */
  method InitPit(targetHz: int) returns (writes: seq<PortWrite>)
    requires IsU32(targetHz)
    ensures |writes| == 3
    ensures writes[0] == PortWrite(PIT_COMMAND_PORT, PIT_MODE)
    ensures writes[1].port == PIT_CHANNEL0_PORT && writes[2].port == PIT_CHANNEL0_PORT
    ensures writes[1].value as int + 256 * writes[2].value as int == Divisor(targetHz)
  {
    var divisor := Divisor(targetHz);
    BytesRecombine(divisor, divisor);
    writes := [PortWrite(PIT_COMMAND_PORT, PIT_MODE)];
    writes := writes + [PortWrite(PIT_CHANNEL0_PORT, LowByte(divisor))];
    writes := writes + [PortWrite(PIT_CHANNEL0_PORT, HighByte(divisor))];
  }

  /** The counter after one `fetch_add(1)`: it wraps at 2^64. */
  function Tick(t: int): (u: int)
    ensures IsU64(u)
  {
    (t + 1) % U64_MODULUS
  }

  /** A tick moves the counter up by one, except from the largest u64 value,
      which wraps to 0; so a tick always changes the counter, and the wait
      for the next tick in the animation loop ends at the next timer
      interrupt. */
  lemma TickAdvances(t: int)
    requires IsU64(t)
    ensures IsU64(Tick(t)) && Tick(t) != t
    ensures Tick(t) == t + 1 <==> t < U64_MODULUS - 1
    ensures Tick(t) == 0 <==> t == U64_MODULUS - 1
  {
  }

  /** The counter and the flag after n timer interrupts. */
  function TicksAfter(t: int, n: nat): int
    decreases n
  {
    if n == 0 then t else Tick(TicksAfter(t, n - 1))
  }

  function FlagAfter(f: bool, n: nat): bool
    decreases n
  {
    if n == 0 then f else !FlagAfter(f, n - 1)
  }

  /** After n interrupts the counter has moved by n modulo 2^64 and the
      cursor flag has flipped n times: it is back where it was exactly when
      n is even. */
  lemma {:induction false} InterruptsCount(t: int, f: bool, n: nat)
    requires IsU64(t)
    ensures TicksAfter(t, n) == (t + n) % U64_MODULUS
    ensures FlagAfter(f, n) == (if n % 2 == 0 then f else !f)
    decreases n
  {
    if n > 0 {
      InterruptsCount(t, f, n - 1);
      var k := (t + n - 1) / U64_MODULUS;
      assert t + n - 1 == k * U64_MODULUS + TicksAfter(t, n - 1);
      assert (t + n) == k * U64_MODULUS + (TicksAfter(t, n - 1) + 1);
    }
  }

  /** The kernel's two globals that the timer handler touches:
      `TIMER_TICKS` and the terminal's `CURSOR_TOGGLE_FLAG`. */
  class TimerState {
    var ticks: int
    var cursorFlag: bool

    ghost predicate Valid()
      reads this
    {
      IsU64(ticks)
    }

    /** Both start cleared. */
    constructor()
      ensures Valid() && ticks == 0 && !cursorFlag
    {
      ticks := 0;
      cursorFlag := false;
    }

    /** `timer_interrupt_handler`: count the tick and flip the cursor
        flag. */
    method TimerInterrupt()
      requires Valid()
      modifies this
      ensures Valid() && ticks == Tick(old(ticks)) && cursorFlag == !old(cursorFlag)
    {
      TickAdvances(ticks);
      ticks := (ticks + 1) % U64_MODULUS;
      var currentState := cursorFlag;
      cursorFlag := !currentState;
    }

    /** `timer_ticks`: read the counter. */
    method TimerTicks() returns (t: int)
      requires Valid()
      ensures IsU64(t) && t == ticks
    {
      t := ticks;
    }
  }
}
