/** port.c: the stack a new task starts on, and critical sections. */
module PortC {
  import opened Arm
  import opened PortAsm
  import opened TaskFrames

  // ---- pxPortInitialiseStack ---------------------------------------------------------

  const INITIAL_SPSR: Word := 0x1f
  const THUMB_BIT: Word := 0x20

  /** portSTACK_INITIAL_VALUE_R1 to _R12. */
  const SCRATCH: seq<Word> := [
    0x01010101, 0x02020202, 0x03030303, 0x04040404, 0x05050505, 0x06060606,
    0x07070707, 0x08080808, 0x09090909, 0x10101010, 0x11111111, 0x12121212]

  /** The machine a new task looks as if it had been suspended from: about to execute
      code(param) in the state its address asks for, returning to `exit`, interrupts on. */
  function NewTask(fpu: bool, top: Word, code: Word, param: Word, exit: Word, m: Machine): Machine
    requires top >= 8
  {
    m.(r := [param] + SCRATCH, pc := code, cpsr := Psr(0, 0, false, false, code % 2 == 1, SYS_MODE),
       spSys := top - 8, lrSys := exit, critical := 0,
       hasFpu := if fpu then 1 else m.hasFpu, fpscr := 0, fp := seq(32, _ => 0))
  }

  /** The words pxPortInitialiseStack leaves, ascending. */
  function NewFrame(fpu: bool, code: Word, param: Word, exit: Word): seq<Word> {
    (if fpu then [1] + seq(33, _ => 0) else [])
    + ([0] + (([param] + SCRATCH + [exit]) + [code, if code % 2 == 1 then 0x3f else 0x1f]))
  }

  lemma NewFrameIsTaskFrame(fpu: bool, top: Word, code: Word, param: Word, exit: Word, m: Machine)
    requires top >= 8
    ensures var x := NewTask(fpu, top, code, param, exit, m);
            NewFrame(fpu, code, param, exit) == TaskFrame(fpu, x, x.pc, x.cpsr)
  {
    var x := NewTask(fpu, top, code, param, exit, m);
    assert x.cpsr.Encode() == if code % 2 == 1 then 0x3f else 0x1f;
    assert [1] + seq(33, _ => 0) == [1 as Word, 0] + seq(32, _ => 0);
  }

  /** Restoring a new task's frame starts it at `code` with r0 = param, lr = exit, the matching
      instruction set, critical nesting 0, and sp at the third guard word. */
  lemma NewTaskStarts(fpu: bool, m: Machine, top: Word, code: Word, param: Word, exit: Word)
    requires top >= 220 && m.cur < |m.tops| && m.tops[m.cur] == top - 8 - FrameSize(fpu, 1)
    requires Rds(m.mem, m.tops[m.cur], FrameSize(fpu, 1) / 4) == NewFrame(fpu, code, param, exit)
    ensures var n := Restored(fpu, m);
            && n.pc == code && n.r[0] == param && n.r[1..] == SCRATCH && n.lrSys == exit
            && n.spSys == top - 8 && n.critical == 0
            && n.cpsr.mode == SYS_MODE && !n.cpsr.irqOff && (n.cpsr.thumb <==> code % 2 == 1)
            && (fpu ==> n.hasFpu == 1 && n.fpscr == 0 && forall i :: 0 <= i < 32 ==> n.fp[i] == 0)
  {
    NewFrameIsTaskFrame(fpu, top, code, param, exit, m);
    RestoreReadsFrame(fpu, m, NewTask(fpu, top, code, param, exit, m));
  }

  class Port {
    const fpu: bool                // configUSE_TASK_FPU_SUPPORT is 2 or 0
    const taskReturnAddress: Word  // portTASK_RETURN_ADDRESS
    var mem: Mem
    var hasFpu: Word               // ulPortTaskHasFPUContext
    var critical: Word             // ulCriticalNesting
    var irqOff: bool               // CPSR.I

    /** pxPortInitialiseStack. */
    method InitialiseStack(top: Word, code: Word, param: Word) returns (sp: Word)
      requires top >= 220
      modifies this`mem, this`hasFpu
      ensures sp == top - 8 - FrameSize(fpu, 1)
      ensures Rds(mem, sp, FrameSize(fpu, 1) / 4) == NewFrame(fpu, code, param, taskReturnAddress)
      ensures Rd(mem, top) == Rd(mem, top - 4) == Rd(mem, top - 8) == 0
      ensures forall a :: a < sp || a > top ==> Rd(mem, a) == Rd(old(mem), a)
      ensures hasFpu == if fpu then 1 else old(hasFpu)
    {
      var p := PushStart(top, code);
      p := PushScratch(p);
      p := PushWord(p, param);
      var q := PushWord(p, 0);
      CoreInPlace(mem, p, code, param, taskReturnAddress);
      if fpu {
        p := PushFp(p);
      }
      sp := p;
    }

    /** Three guard words, SPSR with the Thumb bit when the address asks for it, the return
        address and R14. */
    method PushStart(top: Word, code: Word) returns (p: Word)
      requires top >= 220
      modifies this`mem
      ensures p == top - 24
      ensures Rd(mem, top) == Rd(mem, top - 4) == Rd(mem, top - 8) == 0
      ensures Rd(mem, top - 12) == (if code % 2 == 1 then 0x3f else 0x1f)
      ensures Rd(mem, top - 16) == code && Rd(mem, top - 20) == taskReturnAddress
      ensures forall a :: a <= p || a > top ==> Rd(mem, a) == Rd(old(mem), a)
    {
      p := PushWord(top, 0);
      p := PushWord(p, 0);
      p := PushWord(p, 0);
      var spsr := INITIAL_SPSR;
      if code % 2 != 0 {
        spsr := spsr + THUMB_BIT;
      }
      p := PushWord(p, spsr);
      p := PushWord(p, code);
      p := PushWord(p, taskReturnAddress);
    }

    /** *p = w; p--. */
    method PushWord(p: Word, w: Word) returns (q: Word)
      requires p >= 4
      modifies this`mem
      ensures q == p - 4 && Rd(mem, p) == w
      ensures forall a :: a != p ==> Rd(mem, a) == Rd(old(mem), a)
    {
      mem := mem[p := w];
      q := p - 4;
    }

    /** R12 down to R1. */
    method PushScratch(p: Word) returns (q: Word)
      requires p >= 48
      modifies this`mem
      ensures q == p - 48
      ensures Rds(mem, q + 4, 12) == SCRATCH
      ensures forall a :: a <= q || a > p ==> Rd(mem, a) == Rd(old(mem), a)
    {
      q := PushR12ToR7(p);
      ghost var high := mem;
      q := PushR6ToR1(q);
      SameReads(mem, high, q + 28, 6);
      ReadsConcat(mem, q + 4, 6, 6);
      assert SCRATCH == SCRATCH[..6] + SCRATCH[6..];
    }

    method PushR12ToR7(p: Word) returns (q: Word)
      requires p >= 24
      modifies this`mem
      ensures q == p - 24
      ensures Rds(mem, q + 4, 6) == SCRATCH[6..]
      ensures forall a :: a <= q || a > p ==> Rd(mem, a) == Rd(old(mem), a)
    {
      q := PushWord(p, 0x12121212);
      q := PushWord(q, 0x11111111);
      q := PushWord(q, 0x10101010);
      q := PushWord(q, 0x09090909);
      q := PushWord(q, 0x08080808);
      q := PushWord(q, 0x07070707);
    }

    method PushR6ToR1(p: Word) returns (q: Word)
      requires p >= 24
      modifies this`mem
      ensures q == p - 24
      ensures Rds(mem, q + 4, 6) == SCRATCH[..6]
      ensures forall a :: a <= q || a > p ==> Rd(mem, a) == Rd(old(mem), a)
    {
      q := PushWord(p, 0x06060606);
      q := PushWord(q, 0x05050505);
      q := PushWord(q, 0x04040404);
      q := PushWord(q, 0x03030303);
      q := PushWord(q, 0x02020202);
      q := PushWord(q, 0x01010101);
    }

    /** p -= portFPU_REGISTER_WORDS; memset to 0; p--; *p = pdTRUE. */
    method PushFp(p: Word) returns (q: Word)
      requires fpu && p >= 136
      modifies this`mem, this`hasFpu
      ensures q == p - 136 && hasFpu == 1
      ensures Rds(mem, q, 51) == ([1] + seq(33, _ => 0)) + Rds(old(mem), p, 17)
      ensures forall a :: a < q || a >= p ==> Rd(mem, a) == Rd(old(mem), a)
    {
      var zeros: seq<Word> := seq(33, _ => 0);
      q := p - 33 * 4;
      mem := Wr(mem, q, zeros);
      q := q - 4;
      ghost var cleared := mem;
      mem := mem[q := 1];
      hasFpu := 1;
      ReadBack(old(mem), q + 4, zeros);
      SameReads(mem, cleared, q + 4, 33);
      SameReads(mem, old(mem), p, 17);
      ReadsConcat(mem, q, 1, 33);
      ReadsConcat(mem, q, 34, 17);
      assert Rds(mem, q, 1) == [1];
    }

    function Masking(): Mask
      reads `critical, `irqOff
    {
      Mask(critical, irqOff)
    }

    /** vPortEnterCritical. */
    method EnterCritical()
      modifies this`irqOff, this`critical
      ensures Masking() == Called(old(Masking()), Enter)
      ensures irqOff && critical == (if old(critical) == 0xffff_ffff then 0 else old(critical) + 1)
    {
      irqOff := true;
      critical := Add32(critical, 1);
    }

    /** vPortExitCritical. */
    method ExitCritical()
      modifies this`irqOff, this`critical
      ensures Masking() == Called(old(Masking()), Exit)
      ensures critical == (if old(critical) > 0 then old(critical) - 1 else 0)
      ensures irqOff == if old(critical) == 1 then false else old(irqOff)
    {
      if critical > 0 {
        critical := critical - 1;
        if critical == 0 {
          irqOff := false;
        }
      }
    }
  }

  // ---- critical sections -------------------------------------------------------------

  datatype Critical = Enter | Exit

  /** ulCriticalNesting and the I bit. */
  datatype Mask = Mask(count: Word, irqOff: bool)

  function Called(m: Mask, c: Critical): Mask {
    match c
    case Enter => Mask(Add32(m.count, 1), true)
    case Exit => if m.count == 0 then m else Mask(m.count - 1, m.irqOff && m.count != 1)
  }

  function AfterCalls(calls: seq<Critical>): Mask {
    if calls == [] then Mask(0, false) else Called(AfterCalls(calls[..|calls| - 1]), calls[|calls| - 1])
  }

  /** Sections open after the calls; an exit too many is ignored. */
  function OpenSections(calls: seq<Critical>): nat {
    if calls == [] then 0
    else
      var n := OpenSections(calls[..|calls| - 1]);
      match calls[|calls| - 1]
      case Enter => n + 1
      case Exit => if n == 0 then 0 else n - 1
  }

  /** Critical sections nest: for a task that starts with interrupts on, they are off exactly while
      a section is open, however the calls are nested, up to 2^32 - 1 open sections. */
  lemma {:induction false} CriticalSectionsNest(calls: seq<Critical>)
    requires forall k :: 0 <= k <= |calls| ==> OpenSections(calls[..k]) < WORDS
    ensures AfterCalls(calls).count == OpenSections(calls)
    ensures AfterCalls(calls).irqOff <==> OpenSections(calls) > 0
  {
    assert calls[..|calls|] == calls;
    if calls != [] {
      var front := calls[..|calls| - 1];
      forall k | 0 <= k <= |front| ensures OpenSections(front[..k]) < WORDS {
        assert front[..k] == calls[..k];
      }
      CriticalSectionsNest(front);
    }
  }

  /** One more, and the count is back at 0 with interrupts off: they stay off. */
  lemma FullCountWraps()
    ensures Called(Mask(0xffff_ffff, true), Enter) == Mask(0, true)
    ensures Called(Mask(0, true), Exit) == Mask(0, true)
  {
  }

  lemma CoreInPlace(mem: Mem, p: int, code: Word, param: Word, exit: Word)
    requires Rd(mem, p) == 0 && Rd(mem, p + 4) == param && Rds(mem, p + 8, 12) == SCRATCH
    requires Rd(mem, p + 56) == exit && Rd(mem, p + 60) == code
    requires Rd(mem, p + 64) == if code % 2 == 1 then 0x3f else 0x1f
    ensures Rds(mem, p, 17) == NewFrame(false, code, param, exit)
  {
    ReadsConcat(mem, p, 2, 12);
    ReadsConcat(mem, p, 14, 3);
    assert Rds(mem, p, 2) == [0, param];
    assert Rds(mem, p + 56, 3) == [exit, code, if code % 2 == 1 then 0x3f else 0x1f];
  }
}
