/** r8_irq_guard and r8_irq_guard_calibrate: the padding-word check and the history of the last
    eight interrupts, and the walk bb.py makes over the history. */
module IrqGuard {
  import opened Arm
  import opened PortAsm
  import FaultRecord

  // ---- the padding-word check --------------------------------------------------------

  /** g_r8_word_addr, g_r8_word_off, g_r8_nest_skip and the black box's irq_bad. */
  datatype Check = Check(addr: Word, off: Word, skipped: Word, bad: Word)

  /** r8_irq_guard's verdict on the word at (sp + offset), sp its own stack pointer and depth
      g_current_interrupt_pointer. */
  function Checked(g: Check, magic: Word, sp: Word, depth: nat, mem: Mem): Check {
    if g.addr == 0 then g
    else if g.off == 0 && depth != 0 then g.(skipped := Add32(g.skipped, 1))
    else
      var off := if g.off == 0 then Sub32(g.addr, sp) else g.off;
      var got := Rd(mem, Add32(sp, off));
      g.(off := off, bad := if got != 0 && got != 4 && magic == FaultRecord.MAGIC then Add32(g.bad, 1) else g.bad)
  }

  /** r8_irq_guard_calibrate with the resting sp_svc, inside the SVC stack (base, limit]. */
  function Calibrated(g: Check, rest: Word, base: Word, limit: Word): Check {
    if rest <= base || rest > limit || g.addr != 0 then g
    else
      var align := if Sub32(rest, 28) / 4 % 2 == 1 then 4 else 0;
      g.(addr := Sub32(Sub32(Sub32(rest, 28), align), 4))
  }

  /** The address the calibration computes is the one the outermost PUSH {r2} writes; it changes
      nothing else, and nothing at all outside the stack or the second time. */
  lemma CalibrationFindsPaddingWord(g: Check, rest: Word, base: Word, limit: Word)
    ensures var n := Calibrated(g, rest, base, limit);
            && n.addr == (if g.addr == 0 && base < rest <= limit then FrameBase(WithLr, rest) else g.addr)
            && n.off == g.off && n.skipped == g.skipped && n.bad == g.bad
  {
  }

  // ---- history -----------------------------------------------------------------------

  /** One interrupt as the three parallel rings record it. */
  datatype Entry = Entry(irq: Triple, word: Pair, back: Triple)
  datatype Triple = Triple(a: Word, b: Word, c: Word)
  datatype Pair = Pair(a: Word, b: Word)

  const BLANK := Entry(Triple(0, 0, 0), Pair(0, 0), Triple(0, 0, 0))

  /** Eight blank slots followed by everything that ever happened. */
  function Padded<T>(log: seq<T>, blank: T): seq<T> {
    seq(8, _ => blank) + log
  }

  /** Slot j holds the newest item whose position is j modulo 8. */
  ghost predicate Holds<T>(slots: seq<T>, log: seq<T>, blank: T) {
    |slots| == 8 && forall p :: |log| <= p < |log| + 8 ==> slots[p % 8] == Padded(log, blank)[p]
  }

  /** g_r8_ring_idx after n records. */
  function RingIndex(n: nat): nat {
    if n == 0 then 0 else (n - 1) % 8 + 1
  }

  lemma RecordKeepsHolds<T>(slots: seq<T>, log: seq<T>, blank: T, x: T)
    requires Holds(slots, log, blank)
    ensures Holds(slots[|log| % 8 := x], log + [x], blank)
  {
    var n := |log|;
    forall p | n + 1 <= p < n + 9 ensures slots[n % 8 := x][p % 8] == Padded(log + [x], blank)[p] {
      SameSlot(n, p);
      if p < n + 8 {
        assert Padded(log, blank)[p] == slots[p % 8];
      }
    }
  }

  /** Positions less than eight apart share no slot. */
  lemma SameSlot(n: nat, p: nat)
    requires n < p <= n + 8
    ensures p % 8 == n % 8 <==> p == n + 8
  {
  }

  lemma NextSlot(n: nat)
    ensures RingIndex(n) % 8 == n % 8 && RingIndex(n + 1) == n % 8 + 1
  {
    if n > 0 {
      Digit(n, (n - 1) / 8, (n - 1) % 8 + 1);
    }
  }

  /** bb.py's walk: k = (idx + j) % 8 with idx = ring_idx & 7. */
  function Walk<T>(slots: seq<T>, idx: nat): seq<T>
    requires |slots| == 8
  {
    seq(8, j requires 0 <= j < 8 => slots[(idx % 8 + j) % 8])
  }

  /** THE HISTORY READS OLDEST TO NEWEST.  The walk lists the last eight items in order, the
      slots not yet used first when there are fewer. */
  lemma WalkIsChronological<T>(slots: seq<T>, log: seq<T>, blank: T)
    requires Holds(slots, log, blank)
    ensures Walk(slots, RingIndex(|log|)) == Padded(log, blank)[|log|..]
    ensures |log| >= 8 ==> Walk(slots, RingIndex(|log|)) == log[|log| - 8..]
  {
    var n := |log|;
    var w := Walk(slots, RingIndex(n));
    forall j | 0 <= j < 8 ensures w[j] == Padded(log, blank)[n + j] {
      Slot(n, j);
      assert Padded(log, blank)[n + j] == slots[(n + j) % 8];
    }
    assert w == Padded(log, blank)[n..];
    if n >= 8 {
      assert Padded(log, blank)[n..] == log[n - 8..];
    }
  }

  lemma Slot(n: nat, j: nat)
    ensures (RingIndex(n) % 8 + j) % 8 == (n + j) % 8
  {
    var r := n % 8;
    NextSlot(n);
    Digit(n + j, n / 8 + (r + j) / 8, (r + j) % 8);
  }

  lemma Digit(n: int, q: int, r: int)
    requires n == 8 * q + r && 0 <= r <= 8
    ensures n % 8 == r % 8
  {
  }

  /** irq_culprit, irq_word_got, irq_sp, irq_prev, irq_depth, irq_off. */
  datatype Detection = Detection(culprit: Word, got: Word, sp: Word, prev: Word, depth: Word, off: Word)

  /** rest_min, rest_max, and what calibration reports: svc_rest, irq_word_exp, irq_word_addr. */
  datatype Rests = Rests(min: Word, max: Word, rest: Word, exp: Word, addr: Word, copies: Counters)

  /** The counters of the instruments, as calibration copies them on every call. */
  datatype Counters = Counters(
    spMin: Word, spMax: Word, nestMax: Word, skipped: Word, nestEvents: Word, deferred: Word, applied: Word)

  /** What entry e of the history holds: id, sp and depth as passed; the word's address and, once the
      offset is known, the word; IRQ stack pointer and, if it is inside that stack, the pushed
      status and return address. */
  ghost predicate Shows(e: Entry, icciar: Word, sp: Word, depth: Word, mem: Mem, spIrq: Word, off: Word, inside: bool) {
    && e.irq.a == icciar && e.irq.b == sp && e.irq.c == depth
    && e.word.a == Add32(sp, off) && e.word.b == (if off != 0 then Rd(mem, Add32(sp, off)) else 0)
    && e.back.a == spIrq
    && e.back.b == (if inside then Rd(mem, spIrq) else 0)
    && e.back.c == (if inside then Rd(mem, Add32(spIrq, 4)) else 0)
  }

  class Guard {
    const svcBase: Word
    const svcLimit: Word
    const irqBase: Word
    const irqLimit: Word

    // black box
    var magic: Word
    var irqBad: Word
    var irqSeen: Word
    var seen: Detection
    var rests: Rests

    // SRAM
    var irqPrev: Word
    var irqLast: Word
    var irqCount: Word
    var spMin: Word
    var spMax: Word
    var wordAddr: Word
    var wordExp: Word
    var wordOff: Word
    var nestSkip: Word
    var nestMax: Word
    var nestEvents: Word
    var deferred: Word  // g_r8_yield_defer
    var applied: Word   // g_r8_yield_apply
    const ring: array<Triple>
    const rw: array<Pair>
    const ri: array<Triple>
    var ringIdx: nat
    ghost var log: seq<Entry>

    ghost function State(): Check
      reads this
    {
      Check(wordAddr, wordOff, nestSkip, irqBad)
    }

    ghost function Irqs(): seq<Triple> reads `log { var l := log; seq(|l|, i requires 0 <= i < |l| => l[i].irq) }
    ghost function Words(): seq<Pair> reads `log { var l := log; seq(|l|, i requires 0 <= i < |l| => l[i].word) }
    ghost function Backs(): seq<Triple> reads `log { var l := log; seq(|l|, i requires 0 <= i < |l| => l[i].back) }

    /** The three rings hold the same last eight interrupts at the same slots. */
    ghost predicate Valid()
      reads `log, `ringIdx, ring, rw, ri
    {
      && ring.Length == rw.Length == ri.Length == 8 && ring != ri
      && ringIdx == RingIndex(|log|)
      && Holds(ring[..], Irqs(), BLANK.irq) && Holds(rw[..], Words(), BLANK.word) && Holds(ri[..], Backs(), BLANK.back)
    }

    /** What one call records: the words are read where it stands. */
    ghost function Observed(icciar: Word, sp: Word, depth: Word, mem: Mem, spIrq: Word): Entry
      reads this
    {
      var wa := Add32(sp, wordOff);
      var inside := irqBase <= spIrq < irqLimit;
      Entry(Triple(icciar, sp, depth), Pair(wa, if wordOff != 0 then Rd(mem, wa) else 0),
            Triple(spIrq, if inside then Rd(mem, spIrq) else 0, if inside then Rd(mem, Add32(spIrq, 4)) else 0))
    }

    /** Fresh rings, all zero. */
    constructor ()
      ensures Valid() && log == [] && fresh(ring) && fresh(rw) && fresh(ri)
      ensures State() == Check(0, 0, 0, 0)
    {
      ring := new Triple[8](_ => BLANK.irq);
      rw := new Pair[8](_ => BLANK.word);
      ri := new Triple[8](_ => BLANK.back);
      ringIdx := 0;
      log := [];
      wordAddr, wordExp, wordOff, nestSkip, irqBad, irqSeen := 0, 0, 0, 0, 0, 0;
      irqPrev, irqLast, irqCount, spMin, spMax := 0, 0, 0, 0, 0;
      new;
    }

    /** The counters and the range of sp that r8_irq_guard keeps. */
    method Count(icciar: Word, sp: Word)
      modifies `irqPrev, `irqLast, `irqCount, `spMin, `spMax
      ensures irqPrev == old(irqLast) && irqLast == icciar && irqCount == Add32(old(irqCount), 1)
      ensures spMin == (if old(spMin) == 0 || sp < old(spMin) then sp else old(spMin))
      ensures spMax == (if sp > old(spMax) then sp else old(spMax))
    {
      irqPrev := irqLast;
      irqLast := icciar;
      irqCount := Add32(irqCount, 1);
      if spMin == 0 || sp < spMin {
        spMin := sp;
      }
      if sp > spMax {
        spMax := sp;
      }
    }

    /** The block of r8_irq_guard that fills one slot of each ring. */
    method Record(icciar: Word, sp: Word, depth: Word, mem: Mem, spIrq: Word)
      requires Valid()
      modifies this`ringIdx, this`log, ring, rw, ri
      ensures Valid() && log == old(log) + [old(Observed(icciar, sp, depth, mem, spIrq))]
      ensures Shows(log[|old(log)|], icciar, sp, depth, mem, spIrq, old(wordOff), irqBase <= spIrq < irqLimit)
    {
      ghost var e := Observed(icciar, sp, depth, mem, spIrq);
      ghost var irqs, words, backs := Irqs(), Words(), Backs();
      NextSlot(|log|);
      RecordKeepsHolds(ring[..], irqs, BLANK.irq, e.irq);
      RecordKeepsHolds(rw[..], words, BLANK.word, e.word);
      RecordKeepsHolds(ri[..], backs, BLANK.back, e.back);
      var i := ringIdx % 8;
      ring[i] := Triple(icciar, sp, depth);
      var wa := Add32(sp, wordOff);
      rw[i] := Pair(wa, if wordOff != 0 then Rd(mem, wa) else 0);
      if irqBase <= spIrq < irqLimit {
        ri[i] := Triple(spIrq, Rd(mem, spIrq), Rd(mem, Add32(spIrq, 4)));
      } else {
        ri[i] := Triple(spIrq, 0, 0);
      }
      ringIdx := i + 1;
      log := log + [e];
      assert Irqs() == irqs + [e.irq] && Words() == words + [e.word] && Backs() == backs + [e.back];
    }

    /** The rest of r8_irq_guard: measure the offset on the first call outside any handler, then
        check the word; the first detection is recorded, later ones are only counted. */
    method CheckWord(icciar: Word, sp: Word, depth: Word, mem: Mem)
      modifies this`wordOff, this`nestSkip, this`irqBad, this`irqSeen, this`seen
      ensures State() == Checked(old(State()), magic, sp, depth, mem)
      // skipped while nested and the offset is not known yet; else the word is looked at
      ensures var ready := wordAddr != 0 && (old(wordOff) != 0 || depth == 0);
              && wordOff == (if wordAddr != 0 && old(wordOff) == 0 && depth == 0
                             then Sub32(wordAddr, sp) else old(wordOff))
              && nestSkip == (if wordAddr != 0 && !ready then Add32(old(nestSkip), 1) else old(nestSkip))
              && var word := Rd(mem, Add32(sp, wordOff));
                 irqBad == if ready && word != 0 && word != 4 && magic == FaultRecord.MAGIC then Add32(old(irqBad), 1)
                           else old(irqBad)
      ensures if irqBad != old(irqBad) && old(irqSeen) == 0
              then irqSeen == 1 && seen == Detection(icciar, Rd(mem, Add32(sp, wordOff)), sp, irqPrev, depth, wordOff)
              else irqSeen == old(irqSeen) && seen == old(seen)
    {
      if wordAddr == 0 {
        return;
      }
      if wordOff == 0 {
        if depth != 0 {
          nestSkip := Add32(nestSkip, 1);
          return;
        }
        wordOff := Sub32(wordAddr, sp);
      }
      var got := Rd(mem, Add32(sp, wordOff));
      if got == 0 || got == 4 {
        return;
      }
      if magic == FaultRecord.MAGIC {
        irqBad := Add32(irqBad, 1);
        if irqSeen == 0 {
          seen := Detection(icciar, got, sp, irqPrev, depth, wordOff);
          irqSeen := 1;
        }
      }
    }

    /** r8_irq_guard. */
    method IrqGuard(icciar: Word, sp: Word, depth: Word, mem: Mem, spIrq: Word)
      requires Valid()
      modifies this, ring, rw, ri
      ensures Valid() && log == old(log) + [old(Observed(icciar, sp, depth, mem, spIrq))]
      ensures Shows(log[|old(log)|], icciar, sp, depth, mem, spIrq, old(wordOff), irqBase <= spIrq < irqLimit)
      ensures State() == Checked(old(State()), magic, sp, depth, mem)
      ensures magic == old(magic) && wordAddr == old(wordAddr)
      ensures irqPrev == old(irqLast) && irqLast == icciar && irqCount == Add32(old(irqCount), 1)
      ensures spMin == (if old(spMin) == 0 || sp < old(spMin) then sp else old(spMin))
      ensures spMax == (if sp > old(spMax) then sp else old(spMax))
      // the first detection is recorded, later ones only counted
      ensures if irqBad != old(irqBad) && old(irqSeen) == 0
              then irqSeen == 1
                   && seen == Detection(icciar, Rd(mem, Add32(sp, wordOff)), sp, old(irqLast), depth, wordOff)
              else irqSeen == old(irqSeen) && seen == old(seen)
    {
      Count(icciar, sp);
      Record(icciar, sp, depth, mem, spIrq);
      CheckWord(icciar, sp, depth, mem);
    }

    /** r8_irq_guard_calibrate: the range of resting stack pointers on every call, address and
        expected value once; the black box is written only while its magic is there. */
    method Calibrate(rest: Word)
      modifies this`wordExp, this`wordAddr, this`rests
      ensures State() == Calibrated(old(State()), rest, svcBase, svcLimit)
      ensures wordAddr == if old(wordAddr) == 0 && svcBase < rest <= svcLimit
                          then FrameBase(WithLr, rest) else old(wordAddr)
      ensures wordAddr != old(wordAddr) ==> wordExp == Padding(Sub32(rest, 28))
      ensures if magic == FaultRecord.MAGIC && svcBase < rest <= svcLimit
              then rests.min == (if old(rests).min == 0 || rest < old(rests).min then rest else old(rests).min)
                   && rests.max == (if rest > old(rests).max then rest else old(rests).max)
                   && rests.copies == Counters(spMin, spMax, nestMax, nestSkip, nestEvents, deferred, applied)
                   && (if old(wordAddr) == 0 then rests.rest == rest && rests.exp == wordExp && rests.addr == wordAddr
                       else rests == old(rests).(min := rests.min, max := rests.max, copies := rests.copies))
              else rests == old(rests)
    {
      if rest <= svcBase || rest > svcLimit {
        return;
      }
      if rests.min == 0 || rest < rests.min {
        Set(rests.(min := rest));
      }
      if rest > rests.max {
        Set(rests.(max := rest));
      }
      Set(rests.(copies := Counters(spMin, spMax, nestMax, nestSkip, nestEvents, deferred, applied)));
      if wordAddr != 0 {
        return;
      }
      var align := if Sub32(rest, 28) / 4 % 2 == 1 then 4 else 0;
      Set(rests.(rest := rest, exp := align, addr := Sub32(Sub32(Sub32(rest, 28), align), 4)));
      wordExp := align;
      wordAddr := Sub32(Sub32(Sub32(rest, 28), align), 4);
    }

    /** R8_BB_SET. */
    method Set(r: Rests)
      modifies this`rests
      ensures rests == if magic == FaultRecord.MAGIC then r else old(rests)
    {
      if magic == FaultRecord.MAGIC {
        rests := r;
      }
    }

    /** The snapshot Abort_Handler copies into the black box, as bb.py walks it. */
    method Snapshot() returns (copy: seq<Triple>, words: seq<Pair>, backs: seq<Triple>, idx: nat)
      requires Valid()
      ensures |copy| == |words| == |backs| == 8
      ensures Walk(copy, idx) == Padded(Irqs(), BLANK.irq)[|log|..]
      ensures Walk(words, idx) == Padded(Words(), BLANK.word)[|log|..]
      ensures Walk(backs, idx) == Padded(Backs(), BLANK.back)[|log|..]
      ensures |log| >= 8 ==> forall j :: 0 <= j < 8 ==>
                Entry(Walk(copy, idx)[j], Walk(words, idx)[j], Walk(backs, idx)[j]) == log[|log| - 8 + j]
    {
      idx := ringIdx;
      copy, words, backs := [], [], [];
      for k := 0 to 8
        invariant copy == ring[..k] && words == rw[..k] && backs == ri[..k]
      {
        copy := copy + [ring[k]];
        words := words + [rw[k]];
        backs := backs + [ri[k]];
      }
      assert copy == ring[..] && words == rw[..] && backs == ri[..];
      WalkIsChronological(copy, Irqs(), BLANK.irq);
      WalkIsChronological(words, Words(), BLANK.word);
      WalkIsChronological(backs, Backs(), BLANK.back);
    }
  }
}
