/** The Cortex-R8 as far as the FreeRTOS port can see it: 32-bit words, word-addressed
    memory, program status registers, and one register file with banked stack pointers. */
module Arm {

  const WORDS := 0x1_0000_0000

  type Word = w: int | 0 <= w < WORDS

  function Add32(a: Word, b: Word): Word {
    if a + b < WORDS then a + b else a + b - WORDS
  }

  function Sub32(a: Word, b: Word): Word {
    if a >= b then a - b else a - b + WORDS
  }

  // ---- memory ------------------------------------------------------------------------

  type Mem = map<int, Word>

  function Rd(mem: Mem, a: int): Word {
    if a in mem then mem[a] else 0
  }

  /** Store ws at a, a + 4, ... in ascending order, as a multiple-register push does. */
  function Wr(mem: Mem, a: int, ws: seq<Word>): (r: Mem)
    ensures forall b :: b < a || b >= a + 4 * |ws| ==> Rd(r, b) == Rd(mem, b)
    ensures forall i {:trigger ws[i]} :: 0 <= i < |ws| ==> Rd(r, a + 4 * i) == ws[i]
    decreases |ws|
  {
    if ws == [] then mem
    else
      var rest := Wr(mem[a := ws[0]], a + 4, ws[1..]);
      assert forall i {:trigger ws[i]} :: 1 <= i < |ws| ==> ws[i] == ws[1..][i - 1];
      rest
  }

  function Rds(mem: Mem, a: int, n: nat): (r: seq<Word>)
    ensures |r| == n
    ensures forall i {:trigger r[i]} :: 0 <= i < n ==> r[i] == Rd(mem, a + 4 * i)
  {
    seq(n, i requires 0 <= i < n => Rd(mem, a + 4 * i))
  }

  /** The two memories hold the same words in [lo, hi). */
  ghost predicate Agree(x: Mem, y: Mem, lo: int, hi: int) {
    forall a :: lo <= a < hi ==> Rd(x, a) == Rd(y, a)
  }

  lemma ReadBack(mem: Mem, a: int, ws: seq<Word>)
    ensures Rds(Wr(mem, a, ws), a, |ws|) == ws
  {
  }

  lemma SameReads(x: Mem, y: Mem, a: int, n: nat)
    requires Agree(x, y, a, a + 4 * n)
    ensures Rds(x, a, n) == Rds(y, a, n)
  {
  }

  lemma ReadsConcat(mem: Mem, a: int, n: nat, k: nat)
    ensures Rds(mem, a, n + k) == Rds(mem, a, n) + Rds(mem, a + 4 * n, k)
  {
  }

  // ---- program status registers ------------------------------------------------------

  type Nibble = n: int | 0 <= n < 16
  type Bits20 = n: int | 0 <= n < 0x100000
  type Bits5 = n: int | 0 <= n < 32

  const SYS_MODE: Bits5 := 0x1f
  const SVC_MODE: Bits5 := 0x13
  const IRQ_MODE: Bits5 := 0x12

  /** CPSR and SPSR: condition flags, the bits between them and the I bit, then I, F, T, mode. */
  datatype Psr = Psr(nzcv: Nibble, upper: Bits20, irqOff: bool, fiqOff: bool, thumb: bool, mode: Bits5) {

    function Encode(): Word {
      nzcv * 0x1000_0000 + upper * 0x100
      + (if irqOff then 0x80 else 0) + (if fiqOff then 0x40 else 0) + (if thumb then 0x20 else 0) + mode
    }

    static function Decode(w: Word): Psr {
      Psr(w / 0x1000_0000, w / 0x100 % 0x100000, w / 0x80 % 2 == 1, w / 0x40 % 2 == 1, w / 0x20 % 2 == 1, w % 32)
    }

    /** The status register the core runs with after taking an IRQ or SVC exception. */
    function Taken(newMode: Bits5): Psr {
      this.(irqOff := true, thumb := false, mode := newMode)
    }

    lemma StatusRoundTrip()
      ensures Decode(Encode()) == this
    {
      HighFields();
      LowFields();
    }

    lemma HighFields()
      ensures Encode() / 0x1000_0000 == nzcv && Encode() / 0x100 % 0x100000 == upper
    {
      var low := (if irqOff then 0x80 else 0) + (if fiqOff then 0x40 else 0) + (if thumb then 0x20 else 0) + mode;
      Digits(Encode(), nzcv, 0x1000_0000, upper * 0x100 + low);
      Digits(Encode(), nzcv * 0x100000 + upper, 0x100, low);
      Digits(nzcv * 0x100000 + upper, nzcv, 0x100000, upper);
    }

    lemma LowFields()
      ensures var w := Encode();
              (w / 0x80 % 2 == 1) == irqOff && (w / 0x40 % 2 == 1) == fiqOff && (w / 0x20 % 2 == 1) == thumb
              && w % 0x20 == mode
    {
      var i, f, t := if irqOff then 1 else 0, if fiqOff then 1 else 0, if thumb then 1 else 0;
      var high := nzcv * 0x100000 + upper;
      Digits(Encode(), high * 2 + i, 0x80, f * 0x40 + t * 0x20 + mode);
      Digits(Encode(), high * 4 + i * 2 + f, 0x40, t * 0x20 + mode);
      Digits(Encode(), high * 8 + i * 4 + f * 2 + t, 0x20, mode);
      Digits(high * 2 + i, high, 2, i);
      Digits(high * 4 + i * 2 + f, high * 2 + i, 2, f);
      Digits(high * 8 + i * 4 + f * 2 + t, high * 4 + i * 2 + f, 2, t);
    }
  }

  lemma Digits(n: int, q: int, base: int, rest: int)
    requires 0 <= rest < base && n == q * base + rest
    ensures n / base == q && n % base == rest
  {
    var d := n / base - q;
    assert d * base == rest - n % base;
    assert d == 0 by {
      assert -base < d * base < base;
      Below(d, base);
    }
  }

  lemma Below(d: int, base: int)
    requires base > 0
    ensures d >= 1 ==> d * base >= base
    ensures d <= -1 ==> d * base <= -base
  {
  }

  /** NZCV after CMP a, b. */
  function Compared(a: Word, b: Word): Nibble {
    var d := Sub32(a, b);
    var sa, sb, sd := a >= 0x8000_0000, b >= 0x8000_0000, d >= 0x8000_0000;
    (if sd then 8 else 0) + (if d == 0 then 4 else 0) + (if a >= b then 2 else 0)
    + (if sa != sb && sa != sd then 1 else 0)
  }

  /** The conditions NE and HI, from the flags. */
  predicate Ne(psr: Psr) {
    psr.nzcv / 4 % 2 == 0
  }

  predicate Hi(psr: Psr) {
    psr.nzcv / 2 % 2 == 1 && Ne(psr)
  }

  lemma CompareDecides(psr: Psr, a: Word, b: Word)
    ensures var after := psr.(nzcv := Compared(a, b));
            (Ne(after) <==> a != b) && (Hi(after) <==> a > b)
  {
  }

  // ---- the machine -------------------------------------------------------------------

  type Regs = s: seq<Word> | |s| == 13 witness seq(13, _ => 0)
  type FpBank = s: seq<Word> | |s| == 32 witness seq(32, _ => 0)
  type FpLow = s: seq<Word> | |s| == 16 witness seq(16, _ => 0)
  type Diag8 = s: seq<Word> | |s| == 8 witness seq(8, _ => 0)
  type Diag4 = s: seq<Word> | |s| == 4 witness seq(4, _ => 0)
  type IdStack = s: seq<Word> | |s| == 32 witness seq(32, _ => 0)

  datatype Machine = Machine(
    r: Regs, pc: Word, cpsr: Psr,
    spSys: Word, lrSys: Word,
    spSvc: Word, lrSvc: Word, spsrSvc: Psr,
    spIrq: Word, lrIrq: Word, spsrIrq: Psr,
    fp: FpBank, fpscr: Word,
    mem: Mem,
    nesting: Word,        // ulPortInterruptNesting
    yieldRequired: Word,  // ulPortYieldRequired
    critical: Word,       // ulCriticalNesting
    hasFpu: Word,         // ulPortTaskHasFPUContext
    cur: nat,             // pxCurrentTCB, as a task number
    tops: seq<Word>,      // first word of each TCB: the task's saved stack pointer
    ids: IdStack,         // g_current_interrupt_num
    pointer: nat,         // g_current_interrupt_pointer
    epi: Diag8,           // g_r8_epi
    sw: Diag4             // g_r8_sw
  )

  /** What a C function called from the assembly leaves behind.  AAPCS32 section 6.1.1 lets it
      change r0-r3, r12, lr and the condition flags, and it may store to memory; r4-r11 and sp
      come back as they were.  Section 6.1.2 adds D0-D7 and FPSCR, and keeps D8-D15. */
  datatype CReturn = CReturn(
    r0: Word, r1: Word, r2: Word, r3: Word, r12: Word, lr: Word, nzcv: Nibble,
    low: FpLow, fpscr: Word, writes: Mem)

  function Clobbered(r: Regs, c: CReturn): (q: Regs)
    ensures q[4] == r[4] && q[5..12] == r[5..12]
  {
    [c.r0, c.r1, c.r2, c.r3] + r[4..12] + [c.r12]
  }

  function ClobberedFp(fp: FpBank, c: CReturn): (q: FpBank)
    ensures q[..16] == c.low && q[16..] == fp[16..]
  {
    c.low + fp[16..]
  }

  /** m with the floating-point registers as the C function leaves them. */
  function FpLeft(m: Machine, c: CReturn): Machine {
    m.(fp := ClobberedFp(m.fp, c), fpscr := c.fpscr)
  }

  /** The call leaves the floating-point registers as they were in m, as integer code does. */
  predicate KeepsFp(m: Machine, c: CReturn) {
    c.low == m.fp[..16] && c.fpscr == m.fpscr
  }

  lemma KeptFp(m: Machine, c: CReturn)
    ensures FpLeft(m, c) == m <==> KeepsFp(m, c)
  {
    assert m.fp == m.fp[..16] + m.fp[16..];
  }
}
