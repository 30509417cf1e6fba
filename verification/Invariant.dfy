/** Every step of a run keeps the invariant of module Runs. */
module Invariant {
  import opened Arm
  import opened PortAsm
  import opened BspIrq
  import opened TaskFrames
  import opened Runs

  // ---- framing -----------------------------------------------------------------------

  lemma BaseBelow(f: Frame, sp: Word)
    requires sp >= 36
    ensures var n := f.Bytes(); FrameBase(f, sp) == sp - n - Padding(sp - n) - 4
    ensures sp - 36 <= FrameBase(f, sp) <= sp - 28
    ensures sp % 4 == 0 ==> FrameBase(f, sp) % 8 == 4 && FrameBase(f, sp) % 4 == 0
  {
  }

  lemma LevelMemKept(c: Layout, mem: Mem, mem': Mem, a: Machine)
    requires LevelMem(c, mem, a) && 36 <= a.spSvc <= c.svcTop && a.spIrq <= c.irqTop
    requires Agree(mem', mem, FrameBase(c.frame, a.spSvc), c.svcTop)
    requires Agree(mem', mem, a.spIrq - 8, c.irqTop)
    requires Agree(mem', mem, a.spSys, c.hi[a.cur])
    ensures LevelMem(c, mem', a)
  {
    BaseBelow(c.frame, a.spSvc);
    SameReads(mem', mem, a.spSvc - c.frame.Bytes(), c.frame.Bytes() / 4);
  }

  lemma ParkedKept(c: Layout, m: Machine, n: Machine, t: nat, x: Machine)
    requires t < |m.tops| == |n.tops| == |c.hi| == |c.lo| && Parked(c, m, t, x)
    requires n.tops[t] == m.tops[t] && Agree(n.mem, m.mem, m.tops[t], c.hi[t])
    ensures Parked(c, n, t, x)
  {
    SameReads(n.mem, m.mem, m.tops[t], FrameSize(c.fpu, x.hasFpu) / 4);
  }

  lemma TasksKept(c: Layout, m: Machine, n: Machine, susp: map<nat, Machine>)
    requires |m.tops| == |c.hi| == |c.lo| && n.tops == m.tops && n.cur == m.cur && Tasks(c, m, susp)
    requires forall t :: 0 <= t < |m.tops| && t != m.cur ==> Agree(n.mem, m.mem, m.tops[t], c.hi[t])
    ensures Tasks(c, n, susp)
  {
    forall t | 0 <= t < |m.tops| && t != m.cur ensures Parked(c, n, t, susp[t]) {
      ParkedKept(c, m, n, t, susp[t]);
    }
  }

  lemma KeepsTasks(c: Layout, m: Machine, n: Machine, base: int, susp: map<nat, Machine>)
    requires |m.tops| == |c.hi| == |c.lo| && n.tops == m.tops && n.cur == m.cur && Tasks(c, m, susp)
    requires Keeps(c, m, base, n.mem)
    ensures Tasks(c, n, susp)
  {
    forall t | 0 <= t < |m.tops| && t != m.cur ensures Agree(n.mem, m.mem, m.tops[t], c.hi[t]) {
      assert LiveLo(m, t) == m.tops[t];
    }
    TasksKept(c, m, n, susp);
  }

  /** Deeper levels sit strictly lower on the SVC stack. */
  lemma {:induction false} BasesDescend(c: Layout, lv: seq<Level>, i: nat, j: nat)
    requires i <= j < |lv| && forall k :: 0 <= k < |lv| ==> LevelShape(c, lv, k)
    ensures lv[j].Base(c.frame) <= lv[i].Base(c.frame)
    ensures i < j ==> lv[j].at.spSvc <= lv[i].Base(c.frame)
    decreases j
  {
    if i < j {
      BasesDescend(c, lv, i, j - 1);
      assert LevelShape(c, lv, j);
      BaseBelow(c.frame, lv[j].at.spSvc);
    }
  }

  /** A memory that keeps the live words keeps every level's stored words. */
  lemma LevelsMemKept(c: Layout, s: Sys, base: int, mem: Mem)
    requires |s.m.tops| == |c.hi| && s.m.cur < |c.hi| && Levels(c, s) && s.m.spIrq == c.irqTop - 8 * |s.lv|
    requires Keeps(c, s.m, base, mem)
    requires |s.lv| > 0 ==> base <= s.lv[|s.lv| - 1].Base(c.frame)
    ensures forall i :: 0 <= i < |s.lv| ==> LevelMem(c, mem, s.lv[i].at)
  {
    assert Agree(mem, s.m.mem, s.m.spSys, c.hi[s.m.cur]) by {
      assert LiveLo(s.m, s.m.cur) == s.m.spSys;
    }
    forall i | 0 <= i < |s.lv| ensures LevelMem(c, mem, s.lv[i].at) {
      LevelKeptAt(c, s, i, base, mem);
    }
  }

  lemma LevelKeptAt(c: Layout, s: Sys, i: nat, base: int, mem: Mem)
    requires i < |s.lv| && s.m.cur < |c.hi| && Levels(c, s) && s.m.spIrq == c.irqTop - 8 * |s.lv|
    requires base <= s.lv[|s.lv| - 1].Base(c.frame)
    requires Agree(mem, s.m.mem, base, c.svcTop) && Agree(mem, s.m.mem, s.m.spIrq, c.irqTop)
    requires Agree(mem, s.m.mem, s.m.spSys, c.hi[s.m.cur])
    ensures LevelMem(c, mem, s.lv[i].at)
  {
    LevelFacts(c, s, i);
    OneLevelKept(c, s, i, base, mem);
  }

  lemma LevelFacts(c: Layout, s: Sys, i: nat)
    requires i < |s.lv| && Levels(c, s) && s.m.spIrq == c.irqTop - 8 * |s.lv|
    ensures LevelShape(c, s.lv, i) && LevelMem(c, s.m.mem, s.lv[i].at) && Frozen(s.m, s.lv[i].at)
    ensures s.m.spIrq <= s.lv[i].at.spIrq - 8 && s.lv[|s.lv| - 1].Base(c.frame) <= s.lv[i].Base(c.frame)
  {
    assert LevelShape(c, s.lv, i);
    BasesDescend(c, s.lv, i, |s.lv| - 1);
  }

  lemma OneLevelKept(c: Layout, s: Sys, i: nat, base: int, mem: Mem)
    requires i < |s.lv| && LevelShape(c, s.lv, i) && LevelMem(c, s.m.mem, s.lv[i].at) && Frozen(s.m, s.lv[i].at)
    requires s.m.spIrq <= s.lv[i].at.spIrq - 8 && base <= s.lv[i].Base(c.frame) && s.m.cur < |c.hi|
    requires Agree(mem, s.m.mem, base, c.svcTop) && Agree(mem, s.m.mem, s.m.spIrq, c.irqTop)
    requires Agree(mem, s.m.mem, s.m.spSys, c.hi[s.m.cur])
    ensures LevelMem(c, mem, s.lv[i].at)
  {
    LevelMemKept(c, s.m.mem, mem, s.lv[i].at);
  }

  // ---- task work ---------------------------------------------------------------------

  lemma TaskKeepsInv(c: Layout, s: Sys, s': Sys)
    requires Inv(c, s) && TaskStep(c, s, s')
    ensures Inv(c, s')
  {
    TasksKept(c, s.m, s'.m, s.susp);
  }

  // ---- interrupt entry ---------------------------------------------------------------

  /** A frame stored at `at` and the padding word below it. */
  lemma FrameStored(mem: Mem, at: int, ws: seq<Word>, base: int, padding: Word)
    requires base < at
    ensures var r := Wr(mem, at, ws)[base := padding];
            && Rds(r, at, |ws|) == ws && Rd(r, base) == padding
            && (forall a :: !(base <= a < at + 4 * |ws|) ==> Rd(r, a) == Rd(mem, a))
  {
    var r: Mem := Wr(mem, at, ws)[base := padding];
    ReadBack(mem, at, ws);
    SameReads(r, Wr(mem, at, ws), at, |ws|);
  }

  /** The prologue's stores, all between the old and the new stack pointers, holding exactly
      what the epilogue will look for. */
  lemma EntryStores(f: Frame, m: Machine)
    requires m.spIrq >= 8 && m.spSvc >= 36
    requires Apart(m.spIrq - 8, m.spIrq, FrameBase(f, m.spSvc), m.spSvc)
    ensures var e := EntryMem(f, m);
            && Rd(e, m.spIrq - 4) == m.pc && Rd(e, m.spIrq - 8) == m.cpsr.Encode()
            && Rds(e, m.spSvc - f.Bytes(), f.Bytes() / 4) == IsrFrame(f, m)
            && Rd(e, FrameBase(f, m.spSvc)) == Padding(m.spSvc - f.Bytes())
            && (forall a :: !(m.spIrq - 8 <= a < m.spIrq) && !(FrameBase(f, m.spSvc) <= a < m.spSvc)
                  ==> Rd(e, a) == Rd(m.mem, a))
  {
    EntryMemIs(f, m);
    ReturnStored(m.mem, m.spIrq, m.pc, m.cpsr.Encode());
    FrameOver(f, m, m.mem[m.spIrq - 4 := m.pc][m.spIrq - 8 := m.cpsr.Encode()]);
  }

  /** Word by word: what a dump of the two stacks shows of an interrupt just taken. */
  lemma InterruptFrameLayout(f: Frame, m: Machine)
    requires m.spIrq >= 8 && m.spSvc >= 36
    requires Apart(m.spIrq - 8, m.spIrq, FrameBase(f, m.spSvc), m.spSvc)
    ensures var e := EntryMem(f, m);
            var sp := m.spSvc - (if f == WithLr then 28 else 24);
            && Rd(e, m.spIrq - 4) == m.pc && Rd(e, m.spIrq - 8) == m.cpsr.Encode()
            && Rd(e, sp) == m.r[0] && Rd(e, sp + 4) == m.r[1] && Rd(e, sp + 8) == m.r[2] && Rd(e, sp + 12) == m.r[3]
            && Rd(e, sp + 16) == m.r[4] && Rd(e, sp + 20) == m.r[12] && (f == WithLr ==> Rd(e, sp + 24) == m.lrSvc)
            && Rd(e, if sp % 8 >= 4 then sp - 8 else sp - 4) == (if sp % 8 >= 4 then 4 else 0)
  {
    EntryStores(f, m);
    PaddingAt(f, m.spSvc);
    FrameWords(f, EntryMem(f, m), m.spSvc - f.Bytes(), m);
  }

  /** Bit 2 of the stack pointer below the frame says how much padding there is. */
  lemma PaddingAt(f: Frame, spSvc: Word)
    requires spSvc >= 36
    ensures var sp := spSvc - f.Bytes();
            FrameBase(f, spSvc) == (if sp % 8 >= 4 then sp - 8 else sp - 4)
            && Padding(sp) == if sp % 8 >= 4 then 4 else 0
  {
  }

  lemma FrameWords(f: Frame, mem: Mem, sp: int, m: Machine)
    requires Rds(mem, sp, f.Bytes() / 4) == IsrFrame(f, m)
    ensures Rd(mem, sp) == m.r[0] && Rd(mem, sp + 4) == m.r[1]
    ensures Rd(mem, sp + 8) == m.r[2] && Rd(mem, sp + 12) == m.r[3]
    ensures Rd(mem, sp + 16) == m.r[4] && Rd(mem, sp + 20) == m.r[12] && (f == WithLr ==> Rd(mem, sp + 24) == m.lrSvc)
  {
    var w, g := Rds(mem, sp, f.Bytes() / 4), IsrFrame(f, m);
    assert w[0] == g[0] && w[1] == g[1] && w[2] == g[2] && w[3] == g[3] && w[4] == g[4] && w[5] == g[5];
    assert f == WithLr ==> w[6] == g[6];
  }

  /** The frame goes on top without touching the return state. */
  lemma FrameOver(f: Frame, m: Machine, mem: Mem)
    requires m.spIrq >= 8 && m.spSvc >= 36
    requires Apart(m.spIrq - 8, m.spIrq, FrameBase(f, m.spSvc), m.spSvc)
    ensures var at := m.spSvc - f.Bytes();
            var e := Wr(mem, at, IsrFrame(f, m))[FrameBase(f, m.spSvc) := Padding(at)];
            && Rd(e, m.spIrq - 4) == Rd(mem, m.spIrq - 4) && Rd(e, m.spIrq - 8) == Rd(mem, m.spIrq - 8)
            && Rds(e, at, f.Bytes() / 4) == IsrFrame(f, m) && Rd(e, FrameBase(f, m.spSvc)) == Padding(at)
            && (forall a :: !(FrameBase(f, m.spSvc) <= a < m.spSvc) ==> Rd(e, a) == Rd(mem, a))
  {
    BaseBelow(f, m.spSvc);
    FrameStored(mem, m.spSvc - f.Bytes(), IsrFrame(f, m), FrameBase(f, m.spSvc), Padding(m.spSvc - f.Bytes()));
  }

  lemma EntryMemIs(f: Frame, m: Machine)
    requires m.spIrq >= 8 && m.spSvc >= 36
    ensures var mem: Mem := m.mem[m.spIrq - 4 := m.pc][m.spIrq - 8 := m.cpsr.Encode()];
            var at := m.spSvc - f.Bytes();
            EntryMem(f, m) == Wr(mem, at, IsrFrame(f, m))[FrameBase(f, m.spSvc) := Padding(at)]
  {
  }

  lemma ReturnStored(mem: Mem, sp: int, pc: Word, psr: Word)
    ensures var r: Mem := mem[sp - 4 := pc][sp - 8 := psr];
            Rd(r, sp - 4) == pc && Rd(r, sp - 8) == psr && forall a :: !(sp - 8 <= a < sp) ==> Rd(r, a) == Rd(mem, a)
  {
  }

  /** Where the stack pointers can be. */
  lemma Bounds(c: Layout, s: Sys)
    requires Inv(c, s)
    ensures s.m.spIrq <= c.irqTop && c.svcLo <= s.m.spSvc <= c.svcTop
    ensures forall t :: 0 <= t < |s.m.tops| ==> c.lo[t] <= LiveLo(s.m, t)
    ensures forall i :: 0 <= i < |s.lv| ==> LevelShape(c, s.lv, i)
    ensures |s.lv| > 0 ==> s.lv[|s.lv| - 1].Base(c.frame) <= s.lv[|s.lv| - 1].at.spSvc - 28
  {
    if |s.lv| > 0 {
      assert LevelShape(c, s.lv, |s.lv| - 1);
      BaseBelow(c.frame, s.lv[|s.lv| - 1].at.spSvc);
    }
    forall t | 0 <= t < |s.m.tops| ensures c.lo[t] <= LiveLo(s.m, t) {
      assert t != s.m.cur ==> Parked(c, s.m, t, s.susp[t]);
    }
  }

  /** Entry and the acknowledge call leave every word that was live before as it was, and
      leave the new frame in place. */
  lemma EntryKeeps(c: Layout, m: Machine, mem: Mem)
    requires c.Valid() && |m.tops| == |c.hi| && m.cur < |m.tops|
    requires c.irqLo <= m.spIrq - 8 && m.spIrq <= c.irqTop && c.svcLo <= m.spSvc - 36 && m.spSvc <= c.svcTop
    requires forall t :: 0 <= t < |m.tops| ==> c.lo[t] <= LiveLo(m, t)
    requires Keeps(c, m.(mem := EntryMem(c.frame, m), spIrq := m.spIrq - 8), FrameBase(c.frame, m.spSvc), mem)
    ensures Keeps(c, m, m.spSvc, mem)
    ensures LevelMem(c, mem, m)
  {
    BaseBelow(c.frame, m.spSvc);
    EntryStores(c.frame, m);
    var w := m.(mem := EntryMem(c.frame, m), spIrq := m.spIrq - 8);
    forall t | 0 <= t < |m.tops| ensures Agree(mem, m.mem, LiveLo(m, t), c.hi[t]) {
      assert Agree(mem, w.mem, LiveLo(w, t), c.hi[t]);
      assert Apart(c.lo[t], c.hi[t], c.svcLo, c.svcTop) && Apart(c.lo[t], c.hi[t], c.irqLo, c.irqTop);
    }
    assert LiveLo(m, m.cur) == m.spSys;
    SameReads(mem, w.mem, m.spSvc - c.frame.Bytes(), c.frame.Bytes() / 4);
  }

  /** Preemption needs a strictly higher priority, so a seventeenth active level cannot exist. */
  lemma EntryDepth(c: Layout, s: Sys, prio: int)
    requires Core(c, s) && Levels(c, s) && !s.m.cpsr.irqOff
    requires IsPriority(prio) && forall i :: 0 <= i < |s.lv| ==> prio < s.lv[i].prio
    ensures |s.lv| < 16 && s.m.pointer == |s.lv|
  {
    assert |s.lv| > 0 ==> !s.lv[|s.lv| - 1].tail;
    forall i | 0 <= i < |s.lv| ensures IsPriority(s.lv[i].prio) && !Spurious(s.lv[i].icciar) {
      assert LevelShape(c, s.lv, i);
    }
    DistinctPriorities(s.lv, prio);
  }

  lemma DistinctPriorities(lv: seq<Level>, prio: int)
    requires IsPriority(prio) && forall i :: 0 <= i < |lv| ==> prio < lv[i].prio && IsPriority(lv[i].prio)
    requires forall i, j :: 0 <= i < j < |lv| ==> lv[j].prio < lv[i].prio
    ensures |lv| < 16
  {
    var ps := seq(|lv|, i requires 0 <= i < |lv| => lv[i].prio) + [prio];
    PriorityPigeonhole(ps);
  }

  /** The machine an interrupt entry produces, in the terms the invariant needs. */
  lemma EntryFacts(c: Layout, s: Sys, s': Sys, ack: CReturn, prio: int)
    requires Inv(c, s) && IrqStep(c, s, s', ack, prio)
    ensures Keeps(c, s.m.(mem := EntryMem(c.frame, s.m), spIrq := s.m.spIrq - 8),
                  FrameBase(c.frame, s.m.spSvc), s'.m.mem)
    ensures Frozen(s'.m, s.m) && s'.m.spIrq == s.m.spIrq - 8 && s'.m.spSvc == FrameBase(c.frame, s.m.spSvc)
    ensures s'.m.nesting == s.m.nesting + 1 && s'.m.yieldRequired == s.m.yieldRequired
    ensures s'.m.cpsr.mode == SVC_MODE && s'.m.cpsr.irqOff == Spurious(ack.r0)
    ensures s'.m.epi[6] == s.m.epi[6]
    ensures if Spurious(ack.r0) then s'.m.pointer == s.m.pointer && s'.m.ids == s.m.ids
            else |s.lv| < 16 && s'.m.pointer == s.m.pointer + 1
                 && s'.m.ids == s.m.ids[|s.lv| := InterruptNumber(ack.r0, c.idBase)]
  {
    EntryDispatch(c, s, s', ack, prio);
  }

  lemma EntryDispatch(c: Layout, s: Sys, s': Sys, ack: CReturn, prio: int)
    requires |s.m.tops| == |c.hi| && Core(c, s) && Levels(c, s) && IrqStep(c, s, s', ack, prio)
    ensures if Spurious(ack.r0) then s'.m.pointer == s.m.pointer && s'.m.ids == s.m.ids
            else |s.lv| < 16 && s'.m.pointer == s.m.pointer + 1
                 && s'.m.ids == s.m.ids[|s.lv| := InterruptNumber(ack.r0, c.idBase)]
  {
    if !Spurious(ack.r0) {
      EntryDepth(c, s, prio);
    }
  }

  lemma IrqKeepsInv(c: Layout, s: Sys, s': Sys, ack: CReturn, prio: int)
    requires Inv(c, s) && IrqStep(c, s, s', ack, prio)
    ensures Inv(c, s')
  {
    IrqKeepsTasks(c, s, s', ack, prio);
    IrqKeepsLevels(c, s, s', ack, prio);
    IrqKeepsCore(c, s, s', ack, prio);
  }

  lemma IrqKeepsCore(c: Layout, s: Sys, s': Sys, ack: CReturn, prio: int)
    requires Inv(c, s) && IrqStep(c, s, s', ack, prio)
    requires FrameBase(c.frame, s.m.spSvc) % 4 == 0 && c.svcLo <= FrameBase(c.frame, s.m.spSvc)
    ensures Core(c, s') && |s'.m.tops| == |s.m.tops|
  {
    EntryFacts(c, s, s', ack, prio);
  }

  lemma IrqKeepsLevels(c: Layout, s: Sys, s': Sys, ack: CReturn, prio: int)
    requires Inv(c, s) && IrqStep(c, s, s', ack, prio)
    ensures Levels(c, s') && FrameBase(c.frame, s.m.spSvc) % 4 == 0 && c.svcLo <= FrameBase(c.frame, s.m.spSvc)
  {
    EntryFacts(c, s, s', ack, prio);
    IrqKeepsMem(c, s, s', ack, prio);
    var l := Level(s.m, ack.r0, ack.r0, prio, Spurious(ack.r0));
    ShapesExtend(c, s, l);
    PushKeepsLevels(c, s, s', l);
  }

  lemma IrqKeepsTasks(c: Layout, s: Sys, s': Sys, ack: CReturn, prio: int)
    requires Inv(c, s) && IrqStep(c, s, s', ack, prio)
    ensures Tasks(c, s'.m, s'.susp)
  {
    EntryFacts(c, s, s', ack, prio);
    EntryKeepsLive(c, s, s'.m.mem);
    KeepsTasks(c, s.m, s'.m, s.m.spSvc, s.susp);
  }

  lemma IrqKeepsMem(c: Layout, s: Sys, s': Sys, ack: CReturn, prio: int)
    requires Inv(c, s) && IrqStep(c, s, s', ack, prio)
    ensures forall i :: 0 <= i < |s.lv| ==> LevelMem(c, s'.m.mem, s.lv[i].at)
    ensures LevelMem(c, s'.m.mem, s.m)
  {
    EntryFacts(c, s, s', ack, prio);
    EntryKeepsLive(c, s, s'.m.mem);
    EntryKeepsLevels(c, s, s'.m.mem);
  }

  lemma EntryKeepsLive(c: Layout, s: Sys, mem: Mem)
    requires Inv(c, s) && c.irqLo <= s.m.spIrq - 8 && c.svcLo <= s.m.spSvc - 36
    requires Keeps(c, s.m.(mem := EntryMem(c.frame, s.m), spIrq := s.m.spIrq - 8), FrameBase(c.frame, s.m.spSvc), mem)
    ensures LevelMem(c, mem, s.m) && Keeps(c, s.m, s.m.spSvc, mem)
  {
    Bounds(c, s);
    EntryKeeps(c, s.m, mem);
  }

  lemma EntryKeepsLevels(c: Layout, s: Sys, mem: Mem)
    requires |s.m.tops| == |c.hi| && Core(c, s) && Levels(c, s) && Keeps(c, s.m, s.m.spSvc, mem)
    ensures forall i :: 0 <= i < |s.lv| ==> LevelMem(c, mem, s.lv[i].at)
  {
    LevelsMemKept(c, s, s.m.spSvc, mem);
  }

  lemma ShapesExtend(c: Layout, s: Sys, l: Level)
    requires Core(c, s) && !s.m.cpsr.irqOff && forall i :: 0 <= i < |s.lv| ==> LevelShape(c, s.lv, i)
    requires l.at == s.m && s.m.spIrq - 8 >= c.irqLo && s.m.spSvc - 36 >= c.svcLo
    requires l.r4 == l.icciar && l.tail == Spurious(l.icciar) && (!l.tail ==> IsPriority(l.prio))
    ensures forall i :: 0 <= i <= |s.lv| ==> LevelShape(c, s.lv + [l], i)
    ensures FrameBase(c.frame, s.m.spSvc) % 4 == 0 && c.svcLo <= FrameBase(c.frame, s.m.spSvc)
  {
    BaseBelow(c.frame, s.m.spSvc);
    NewLevelShape(c, s, l);
    forall i | 0 <= i < |s.lv| ensures LevelShape(c, s.lv, i) && !s.lv[i].tail {
      assert LevelShape(c, s.lv, i);
    }
    PushShapes(c, s.lv, l);
  }

  lemma NewLevelShape(c: Layout, s: Sys, l: Level)
    requires |s.lv| > 0 ==> LevelShape(c, s.lv, |s.lv| - 1)
    requires l.at == s.m && s.m.spIrq - 8 >= c.irqLo && s.m.spSvc - 36 >= c.svcLo
    requires Core(c, s) && !s.m.cpsr.irqOff
    requires l.r4 == l.icciar && l.tail == Spurious(l.icciar) && (!l.tail ==> IsPriority(l.prio))
    ensures LevelShape(c, s.lv + [l], |s.lv|)
  {
    if |s.lv| > 0 {
      BaseBelow(c.frame, s.lv[|s.lv| - 1].at.spSvc);
    }
  }

  lemma PushShapes(c: Layout, lv: seq<Level>, l: Level)
    requires forall i :: 0 <= i < |lv| ==> LevelShape(c, lv, i) && !lv[i].tail
    requires LevelShape(c, lv + [l], |lv|)
    ensures forall i :: 0 <= i <= |lv| ==> LevelShape(c, lv + [l], i)
  {
    forall i | 0 <= i < |lv| ensures LevelShape(c, lv + [l], i) {
      assert LevelShape(c, lv, i);
    }
  }

  lemma PushKeepsLevels(c: Layout, s: Sys, s': Sys, l: Level)
    requires Levels(c, s) && s'.lv == s.lv + [l] && l.at == s.m && Frozen(s'.m, s.m)
    requires forall i :: 0 <= i < |s.lv| ==> LevelMem(c, s'.m.mem, s.lv[i].at)
    requires LevelMem(c, s'.m.mem, s.m)
    requires forall i :: 0 <= i < |s'.lv| ==> LevelShape(c, s'.lv, i)
    requires !Spurious(l.icciar) ==> forall i :: 0 <= i < |s.lv| ==> l.prio < s.lv[i].prio
    requires if l.tail then s'.m.ids == s.m.ids
             else |s.lv| < 32 && s'.m.ids == s.m.ids[|s.lv| := InterruptNumber(l.icciar, c.idBase)]
    ensures Levels(c, s')
  {
    forall i | 0 <= i < |s.lv| ensures Frozen(s'.m, s.lv[i].at) {
      assert Frozen(s.m, s.lv[i].at);
    }
  }

  // ---- handler work ------------------------------------------------------------------

  lemma IsrKeepsInv(c: Layout, s: Sys, s': Sys)
    requires Inv(c, s) && IsrStep(c, s, s')
    ensures Inv(c, s')
  {
    IsrKeepsCore(c, s, s');
    IsrKeepsLevels(c, s, s');
    IsrKeepsTasks(c, s, s');
  }

  lemma IsrKeepsCore(c: Layout, s: Sys, s': Sys)
    requires |s.m.tops| == |c.hi| && Core(c, s) && IsrStep(c, s, s')
    ensures Core(c, s') && |s'.m.tops| == |s.m.tops|
  {
  }

  lemma IsrKeepsTasks(c: Layout, s: Sys, s': Sys)
    requires |s.m.tops| == |c.hi| == |c.lo| && Tasks(c, s.m, s.susp) && IsrStep(c, s, s')
    ensures Tasks(c, s'.m, s'.susp)
  {
    KeepsTasks(c, s.m, s'.m, s.lv[|s.lv| - 1].Base(c.frame), s.susp);
  }

  lemma IsrKeepsLevels(c: Layout, s: Sys, s': Sys)
    requires Inv(c, s) && IsrStep(c, s, s')
    ensures Levels(c, s')
  {
    LevelsMemKept(c, s, s.lv[|s.lv| - 1].Base(c.frame), s'.m.mem);
    SameLevels(c, s, s');
  }

  /** The levels survive a step that keeps their words, the id table and what handlers leave alone. */
  lemma SameLevels(c: Layout, s: Sys, s': Sys)
    requires Levels(c, s) && s'.lv == s.lv && s'.m.ids == s.m.ids && Frozen(s'.m, s.m)
    requires forall i :: 0 <= i < |s.lv| ==> LevelMem(c, s'.m.mem, s.lv[i].at)
    ensures Levels(c, s')
  {
    forall i | 0 <= i < |s.lv| ensures Frozen(s'.m, s.lv[i].at) {
      assert Frozen(s.m, s.lv[i].at);
    }
  }

  lemma DoneKeepsInv(c: Layout, s: Sys, s': Sys)
    requires Inv(c, s) && DoneStep(s, s')
    ensures Inv(c, s')
  {
    TasksKept(c, s.m, s'.m, s.susp);
    DoneKeepsLevels(c, s, s');
  }

  lemma DoneKeepsLevels(c: Layout, s: Sys, s': Sys)
    requires Levels(c, s) && DoneStep(s, s')
    ensures Levels(c, s')
  {
    TailShapes(c, s.lv, s'.lv);
    TailLevels(c, s, s'.m, s'.lv);
  }

  lemma TailShapes(c: Layout, lv: seq<Level>, lv': seq<Level>)
    requires |lv| > 0 && lv' == lv[|lv| - 1 := lv[|lv| - 1].(tail := true)]
    requires forall i :: 0 <= i < |lv| ==> LevelShape(c, lv, i)
    ensures forall i :: 0 <= i < |lv'| ==> LevelShape(c, lv', i)
  {
    forall i | 0 <= i < |lv'| ensures LevelShape(c, lv', i) {
      TailShape(c, lv, lv', i);
    }
  }

  lemma TailLevels(c: Layout, s: Sys, m: Machine, lv: seq<Level>)
    requires Levels(c, s) && |s.lv| > 0 && lv == s.lv[|s.lv| - 1 := s.lv[|s.lv| - 1].(tail := true)]
    requires m.mem == s.m.mem && m.ids == s.m.ids && Frozen(m, s.m)
    requires forall i :: 0 <= i < |lv| ==> LevelShape(c, lv, i)
    ensures Levels(c, Sys(m, lv, s.susp, s.asked))
  {
    forall i | 0 <= i < |lv| ensures LevelMem(c, m.mem, lv[i].at) && Frozen(m, lv[i].at) {
      assert LevelMem(c, s.m.mem, s.lv[i].at) && Frozen(s.m, s.lv[i].at);
    }
  }

  lemma TailShape(c: Layout, lv: seq<Level>, lv': seq<Level>, i: nat)
    requires i < |lv| && LevelShape(c, lv, i)
    requires lv' == lv[|lv| - 1 := lv[|lv| - 1].(tail := true)]
    ensures LevelShape(c, lv', i)
  {
  }
}
