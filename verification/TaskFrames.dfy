/** The frame portSAVE_CONTEXT builds on a task's stack is the frame portRESTORE_CONTEXT
    consumes, with and without floating-point support. */
module TaskFrames {
  import opened Arm
  import opened PortAsm

  /** The floating-point part of a frame: flag, FPSCR and D0-D15, or the flag alone, or nothing. */
  function FpPart(fpu: bool, m: Machine): seq<Word> {
    if !fpu then [] else if m.hasFpu == 0 then [m.hasFpu] else [m.hasFpu, m.fpscr] + m.fp
  }

  function CorePart(m: Machine, ret: Word, psr: Psr): seq<Word> {
    [m.critical] + ((m.r + [m.lrSys]) + [ret, psr.Encode()])
  }

  /** A suspended task's whole frame, ascending from the saved stack pointer. */
  function TaskFrame(fpu: bool, m: Machine, ret: Word, psr: Psr): (f: seq<Word>)
    ensures 4 * |f| == FrameSize(fpu, m.hasFpu)
  {
    FpPart(fpu, m) + CorePart(m, ret, psr)
  }

  /** Its size in bytes. */
  function FrameSize(fpu: bool, hasFpu: Word): nat {
    68 + (if !fpu then 0 else if hasFpu == 0 then 4 else 136)
  }

  /** SRSDB, PUSH {R0-R12, R14} and the push of the critical nesting count. */
  lemma CoreStored(mem: Mem, sp: int, regs: seq<Word>, ret: seq<Word>, critical: Word)
    requires |regs| == 14 && |ret| == 2
    ensures var r := Wr(Wr(mem, sp - 8, ret), sp - 64, regs)[sp - 68 := critical];
            && Rds(r, sp - 68, 17) == [critical] + (regs + ret)
            && (forall a :: a < sp - 68 || a >= sp ==> Rd(r, a) == Rd(mem, a))
  {
    var mem2 := Wr(Wr(mem, sp - 8, ret), sp - 64, regs);
    var r: Mem := mem2[sp - 68 := critical];
    RegsStored(mem, sp, regs, ret);
    SameReads(r, mem2, sp - 64, 16);
    ReadsConcat(r, sp - 68, 1, 16);
    assert Rds(r, sp - 68, 1) == [critical];
  }

  lemma RegsStored(mem: Mem, sp: int, regs: seq<Word>, ret: seq<Word>)
    requires |regs| == 14 && |ret| == 2
    ensures var r := Wr(Wr(mem, sp - 8, ret), sp - 64, regs);
            && Rds(r, sp - 64, 16) == regs + ret
            && (forall a :: a < sp - 64 || a >= sp ==> Rd(r, a) == Rd(mem, a))
  {
    var mem1 := Wr(mem, sp - 8, ret);
    var r := Wr(mem1, sp - 64, regs);
    ReadBack(mem, sp - 8, ret);
    ReadBack(mem1, sp - 64, regs);
    SameReads(r, mem1, sp - 8, 2);
    ReadsConcat(r, sp - 64, 14, 2);
  }

  /** VPUSH {D0-D15}, PUSH {FPSCR} and the push of ulPortTaskHasFPUContext. */
  lemma FpStored(mem: Mem, sp: int, has: Word, fpscr: Word, fp: FpBank)
    ensures var r := Wr(mem, sp - 128, fp)[sp - 132 := fpscr][sp - 136 := has];
            && Rds(r, sp - 136, 34) == [has, fpscr] + fp
            && (forall a :: a < sp - 136 || a >= sp ==> Rd(r, a) == Rd(mem, a))
  {
    var mem1: Mem := Wr(mem, sp - 128, fp);
    var r: Mem := mem1[sp - 132 := fpscr][sp - 136 := has];
    ReadBack(mem, sp - 128, fp);
    SameReads(r, mem1, sp - 128, 32);
    ReadsConcat(r, sp - 136, 2, 32);
    assert Rds(r, sp - 136, 2) == [has, fpscr];
  }

  /** The machine after the core pushes, before the floating-point part. */
  function CoreSaved(m: Machine, ret: Word, psr: Psr): Machine
    requires m.spSys >= 68
  {
    var sp := m.spSys;
    m.(spSys := sp - 68,
       mem := Wr(Wr(m.mem, sp - 8, [ret, psr.Encode()]), sp - 64, m.r + [m.lrSys])[sp - 68 := m.critical])
  }

  /** portSAVE_CONTEXT stores exactly the frame, just below the old sp, and nothing else. */
  lemma SaveBuildsFrame(fpu: bool, m: Machine, ret: Word, psr: Psr)
    requires m.cur < |m.tops| && m.spSys >= FrameSize(fpu, m.hasFpu)
    ensures var s := Saved(fpu, m, ret, psr);
            var size := FrameSize(fpu, m.hasFpu);
            && s.spSys == m.spSys - size
            && Rds(s.mem, s.spSys, size / 4) == TaskFrame(fpu, m, ret, psr)
            && (forall a :: a < s.spSys || a >= m.spSys ==> Rd(s.mem, a) == Rd(m.mem, a))
  {
    SavedIsCore(fpu, m, ret, psr);
    if fpu {
      FpFrame(m, ret, psr);
    } else {
      CoreFrame(m, ret, psr);
    }
  }

  /** Below sp, word by word from the top: status, return address, lr, r12 down to r0, critical nesting
      and, with floating point, D15 down to D0, FPSCR and the flag. */
  ghost predicate LaidOut(fpu: bool, mem: Mem, sp: int, m: Machine, ret: Word, psr: Psr) {
    && Rd(mem, sp - 4) == psr.Encode() && Rd(mem, sp - 8) == ret && Rd(mem, sp - 12) == m.lrSys
    && (forall k :: 0 <= k < 13 ==> Rd(mem, sp - 64 + 4 * k) == m.r[k])
    && Rd(mem, sp - 68) == m.critical
    && (fpu && m.hasFpu == 0 ==> Rd(mem, sp - 72) == 0)
    && (fpu && m.hasFpu != 0 ==>
          && (forall k :: 0 <= k < 32 ==> Rd(mem, sp - 196 + 4 * k) == m.fp[k])
          && Rd(mem, sp - 200) == m.fpscr && Rd(mem, sp - 204) == m.hasFpu)
  }

  /** Saving lays out the task's state so, and remembers where. */
  lemma TaskFrameLayout(fpu: bool, m: Machine, ret: Word, psr: Psr)
    requires m.cur < |m.tops| && m.spSys >= FrameSize(fpu, m.hasFpu)
    ensures var s := Saved(fpu, m, ret, psr);
            && LaidOut(fpu, s.mem, m.spSys, m, ret, psr)
            && s.tops[m.cur] == m.spSys - (if !fpu then 68 else if m.hasFpu == 0 then 72 else 204)
  {
    SaveBuildsFrame(fpu, m, ret, psr);
    SavedTop(fpu, m, ret, psr);
    FrameWords(fpu, Saved(fpu, m, ret, psr).mem, m.spSys - FrameSize(fpu, m.hasFpu), m, ret, psr);
  }

  lemma SavedTop(fpu: bool, m: Machine, ret: Word, psr: Psr)
    requires m.cur < |m.tops| && m.spSys >= FrameSize(fpu, m.hasFpu)
    ensures Saved(fpu, m, ret, psr).tops[m.cur] == m.spSys - FrameSize(fpu, m.hasFpu)
  {
    SavedIsCore(fpu, m, ret, psr);
  }

  lemma FrameWords(fpu: bool, mem: Mem, at: int, m: Machine, ret: Word, psr: Psr)
    requires Rds(mem, at, FrameSize(fpu, m.hasFpu) / 4) == TaskFrame(fpu, m, ret, psr)
    ensures LaidOut(fpu, mem, at + FrameSize(fpu, m.hasFpu), m, ret, psr)
  {
    FrameParts(fpu, mem, at, m, ret, psr);
    CoreWords(mem, at + FrameSize(fpu, m.hasFpu), m, ret, psr);
    if fpu {
      FpWords(mem, at, m);
    }
  }

  lemma FrameParts(fpu: bool, mem: Mem, at: int, m: Machine, ret: Word, psr: Psr)
    requires Rds(mem, at, FrameSize(fpu, m.hasFpu) / 4) == TaskFrame(fpu, m, ret, psr)
    ensures Rds(mem, at, |FpPart(fpu, m)|) == FpPart(fpu, m)
    ensures Rds(mem, at + FrameSize(fpu, m.hasFpu) - 68, 17) == CorePart(m, ret, psr)
  {
    Split(mem, at, FpPart(fpu, m), CorePart(m, ret, psr));
  }

  lemma CoreWords(mem: Mem, sp: int, m: Machine, ret: Word, psr: Psr)
    requires Rds(mem, sp - 68, 17) == CorePart(m, ret, psr)
    ensures Rd(mem, sp - 4) == psr.Encode() && Rd(mem, sp - 8) == ret && Rd(mem, sp - 12) == m.lrSys
    ensures forall k :: 0 <= k < 13 ==> Rd(mem, sp - 64 + 4 * k) == m.r[k]
    ensures Rd(mem, sp - 68) == m.critical
  {
    var w, c := Rds(mem, sp - 68, 17), CorePart(m, ret, psr);
    assert w[0] == c[0] && w[14] == c[14] && w[15] == c[15] && w[16] == c[16];
    forall k | 0 <= k < 13 ensures Rd(mem, sp - 64 + 4 * k) == m.r[k] {
      assert w[1 + k] == c[1 + k] == m.r[k];
    }
  }

  lemma FpWords(mem: Mem, at: int, m: Machine)
    requires Rds(mem, at, |FpPart(true, m)|) == FpPart(true, m)
    ensures Rd(mem, at) == m.hasFpu
    ensures m.hasFpu != 0 ==> Rd(mem, at + 4) == m.fpscr
    ensures m.hasFpu != 0 ==> forall k :: 0 <= k < 32 ==> Rd(mem, at + 8 + 4 * k) == m.fp[k]
  {
    var w, f := Rds(mem, at, |FpPart(true, m)|), FpPart(true, m);
    assert w[0] == f[0];
    if m.hasFpu != 0 {
      assert w[1] == f[1];
      forall k | 0 <= k < 32 ensures Rd(mem, at + 8 + 4 * k) == m.fp[k] {
        assert w[2 + k] == f[2 + k];
      }
    }
  }

  lemma CoreFrame(m: Machine, ret: Word, psr: Psr)
    requires m.spSys >= 68
    ensures var s := CoreSaved(m, ret, psr);
            && Rds(s.mem, s.spSys, 17) == CorePart(m, ret, psr)
            && (forall a :: a < s.spSys || a >= m.spSys ==> Rd(s.mem, a) == Rd(m.mem, a))
  {
    CoreStored(m.mem, m.spSys, m.r + [m.lrSys], [ret, psr.Encode()], m.critical);
  }

  lemma FpFrame(m: Machine, ret: Word, psr: Psr)
    requires m.spSys >= FrameSize(true, m.hasFpu)
    ensures var s := SavedFp(CoreSaved(m, ret, psr));
            && s.spSys == m.spSys - FrameSize(true, m.hasFpu)
            && Rds(s.mem, s.spSys, FrameSize(true, m.hasFpu) / 4) == TaskFrame(true, m, ret, psr)
            && (forall a :: a < s.spSys || a >= m.spSys ==> Rd(s.mem, a) == Rd(m.mem, a))
  {
    CoreFrame(m, ret, psr);
    HeadStored(CoreSaved(m, ret, psr), CorePart(m, ret, psr));
  }

  lemma SavedIsCore(fpu: bool, m: Machine, ret: Word, psr: Psr)
    requires m.cur < |m.tops| && m.spSys >= FrameSize(fpu, m.hasFpu)
    ensures var core := CoreSaved(m, ret, psr);
            var all := if fpu then SavedFp(core) else core;
            Saved(fpu, m, ret, psr) == all.(tops := m.tops[m.cur := all.spSys])
  {
  }

  lemma HeadStored(core: Machine, rest: seq<Word>)
    requires |rest| == 17 && core.spSys >= FrameSize(true, core.hasFpu) - 68
    requires Rds(core.mem, core.spSys, 17) == rest
    ensures var s := SavedFp(core);
            var head := FpPart(true, core);
            && s.spSys == core.spSys - 4 * |head|
            && Rds(s.mem, s.spSys, |head| + 17) == head + rest
            && (forall a :: a < s.spSys || a >= core.spSys ==> Rd(s.mem, a) == Rd(core.mem, a))
  {
    var s := SavedFp(core);
    if core.hasFpu == 0 {
      assert Rds(s.mem, s.spSys, 1) == [core.hasFpu];
      ReadsConcat(s.mem, s.spSys, 1, 17);
    } else {
      FpStored(core.mem, core.spSys, core.hasFpu, core.fpscr, core.fp);
      ReadsConcat(s.mem, s.spSys, 34, 17);
    }
    SameReads(s.mem, core.mem, core.spSys, 17);
  }

  /** The context portRESTORE_CONTEXT brings back from x's frame; hasFpu, FPSCR and D0-D15 only
      when they are part of the frame. */
  function Resumed(fpu: bool, m: Machine, x: Machine): Machine {
    m.(r := x.r, pc := x.pc, cpsr := x.cpsr, spSys := x.spSys, lrSys := x.lrSys, critical := x.critical,
       hasFpu := if fpu then x.hasFpu else m.hasFpu,
       fp := if fpu && x.hasFpu != 0 then x.fp else m.fp,
       fpscr := if fpu && x.hasFpu != 0 then x.fpscr else m.fpscr)
  }

  /** portRESTORE_CONTEXT recovers the context a frame was made from. */
  lemma RestoreReadsFrame(fpu: bool, m: Machine, x: Machine)
    requires m.cur < |m.tops| && m.tops[m.cur] == x.spSys - FrameSize(fpu, x.hasFpu)
    requires Rds(m.mem, m.tops[m.cur], FrameSize(fpu, x.hasFpu) / 4) == TaskFrame(fpu, x, x.pc, x.cpsr)
    ensures Restored(fpu, m) == Resumed(fpu, m, x)
  {
    var top := m.tops[m.cur];
    Split(m.mem, top, FpPart(fpu, x), CorePart(x, x.pc, x.cpsr));
    if fpu {
      RestoreReadsFp(m.(spSys := top), x);
    }
    var n := if fpu then RestoredFp(m.(spSys := top)) else m.(spSys := top);
    RestoreReadsCore(n, x);
  }

  lemma Split(mem: Mem, a: int, x: seq<Word>, y: seq<Word>)
    requires Rds(mem, a, |x| + |y|) == x + y
    ensures Rds(mem, a, |x|) == x && Rds(mem, a + 4 * |x|, |y|) == y
  {
    ReadsConcat(mem, a, |x|, |y|);
    var u, v := Rds(mem, a, |x|), Rds(mem, a + 4 * |x|, |y|);
    assert u == (u + v)[..|x|] == (x + y)[..|x|] == x;
    assert v == (u + v)[|x|..] == (x + y)[|x|..] == y;
  }

  lemma RestoreReadsCore(m: Machine, x: Machine)
    requires m.spSys + 68 == x.spSys
    requires Rds(m.mem, m.spSys, 17) == CorePart(x, x.pc, x.cpsr)
    ensures RestoredCore(m) == m.(r := x.r, pc := x.pc, cpsr := x.cpsr, spSys := x.spSys, lrSys := x.lrSys,
                                  critical := x.critical)
  {
    var back := [x.pc, x.cpsr.Encode()];
    Split(m.mem, m.spSys, [x.critical], (x.r + [x.lrSys]) + back);
    assert Rds(m.mem, m.spSys, 1)[0] == x.critical;
    Split(m.mem, m.spSys + 4, x.r + [x.lrSys], back);
    var w := Rds(m.mem, m.spSys + 4, 14);
    assert w[..13] == x.r && w[13] == x.lrSys;
    var v := Rds(m.mem, m.spSys + 60, 2);
    assert v[0] == x.pc && v[1] == x.cpsr.Encode();
    x.cpsr.StatusRoundTrip();
  }

  lemma RestoreReadsFp(m: Machine, x: Machine)
    requires m.spSys == x.spSys - FrameSize(true, x.hasFpu)
    requires Rds(m.mem, m.spSys, |FpPart(true, x)|) == FpPart(true, x)
    ensures RestoredFp(m) == m.(spSys := x.spSys - 68, hasFpu := x.hasFpu,
                                fp := if x.hasFpu != 0 then x.fp else m.fp,
                                fpscr := if x.hasFpu != 0 then x.fpscr else m.fpscr)
  {
    var h := Rds(m.mem, m.spSys, |FpPart(true, x)|);
    assert h[0] == x.hasFpu;
    if x.hasFpu != 0 {
      Split(m.mem, m.spSys, [x.hasFpu, x.fpscr], x.fp);
      assert h[1] == x.fpscr;
    }
  }

  /** Restore after save, with nothing but dead words changed in between, is the identity on
      the task's registers, return state and critical nesting, and on its floating-point state
      when the frame holds it. */
  lemma SaveRestoreIdentity(fpu: bool, m: Machine, ret: Word, psr: Psr, sched: CReturn)
    requires m.cur < |m.tops| && m.spSys >= FrameSize(fpu, m.hasFpu)
    requires var s := Saved(fpu, m, ret, psr); Agree(s.mem + sched.writes, s.mem, s.spSys, m.spSys)
    ensures var n := Switched(fpu, m, ret, psr, sched, m.cur);
            && n == m.(pc := ret, cpsr := psr, mem := n.mem, tops := n.tops, fp := n.fp, fpscr := n.fpscr)
            && if fpu && m.hasFpu != 0 then n.fp == m.fp && n.fpscr == m.fpscr
               else n.fp == ClobberedFp(m.fp, sched) && n.fpscr == sched.fpscr
  {
    var s := Saved(fpu, m, ret, psr);
    var n := Selected(s, sched, m.cur);
    SaveBuildsFrame(fpu, m, ret, psr);
    SameReads(n.mem, s.mem, s.spSys, FrameSize(fpu, m.hasFpu) / 4);
    RestoreReadsFrame(fpu, n, m.(pc := ret, cpsr := psr));
  }
}
