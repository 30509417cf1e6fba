/** bsp_irq.c: the interrupt dispatcher and the priority encoding. */
module BspIrq {
  import opened Arm

  /** BSP_PRV_ID_MASK. */
  function IntId(icciar: Word): nat {
    icciar % 1024
  }

  /** 1023 is the GIC's spurious interrupt id (BSP_GIC_SPECIAL_ID). */
  predicate Spurious(icciar: Word) {
    IntId(icciar) == 1023
  }

  /** (uint16_t)(gic_intid - BSP_CORTEX_VECTOR_TABLE_ENTRIES). */
  function InterruptNumber(icciar: Word, idBase: nat): Word {
    (IntId(icciar) - idBase) % 0x10000
  }

  /** w is the sixteen-bit number of the interrupt acknowledged as icciar: adding the table entries of
      the core's own vectors back gives the ten-bit id. */
  predicate Numbers(w: Word, icciar: Word, idBase: nat) {
    && w < 0x10000 && (w + idBase) % 0x10000 == icciar % 1024
    && (idBase <= icciar % 1024 ==> w + idBase == icciar % 1024)
  }

  lemma NumberIs(icciar: Word, idBase: nat)
    ensures Numbers(InterruptNumber(icciar, idBase), icciar, idBase)
  {
  }

  /** Interrupts with different ids get different numbers. */
  lemma NumbersDiffer(v: Word, w: Word, a: Word, b: Word, idBase: nat)
    requires Numbers(v, a, idBase) && Numbers(w, b, idBase) && a % 1024 != b % 1024
    ensures v != w
  {
  }

  // ---- priorities --------------------------------------------------------------------

  /** What R_BSP_IrqCfg stores in a priority byte; the mask is BSP_FEATURE_INTC_IRQ_PRIORITY_MASK. */
  function PriorityByte(priority: bv32, mask: bv32): bv8 {
    (((priority << 4) & mask) & 0xff) as bv8
  }

  /** One of the sixteen values whose low four bits are clear. */
  predicate IsPriority(p: int) {
    0 <= p < 256 && p % 16 == 0
  }

  lemma PriorityBytesAreMultiplesOf16(priority: bv32, mask: bv32)
    ensures PriorityByte(priority, mask) & 0x0f == 0
    ensures IsPriority(PriorityByte(priority, mask) as int)
  {
    var b := PriorityByte(priority, mask);
    assert b & 0x0f == 0;
    assert b == (b >> 4) << 4;
    assert b as int == (b >> 4) as int * 16;
  }

  /** THE SIXTEEN PRIORITIES KEEP THEIR ORDER exactly when the mask lets all four bits through. */
  lemma PrioritiesKeepOrderIff(mask: bv32)
    ensures (forall p: bv32, q: bv32 :: p < q < 16 ==> PriorityByte(p, mask) < PriorityByte(q, mask))
            <==> mask & 0xf0 == 0xf0
    ensures mask & 0xf0 == 0xf0 ==> forall p: bv32 :: p < 16 ==> PriorityByte(p, mask) == ((p << 4) & 0xff) as bv8
  {
    if mask & 0xf0 == 0xf0 {
      forall p: bv32, q: bv32 | p < q < 16 ensures PriorityByte(p, mask) < PriorityByte(q, mask) {
        FullMaskOrders(p, q, mask);
      }
      forall p: bv32 | p < 16 ensures PriorityByte(p, mask) == ((p << 4) & 0xff) as bv8 {
        FullMaskKeeps(p, mask);
      }
    } else {
      var bit := LostBit(mask);
      assert 0 < bit < 16 && !(PriorityByte(0, mask) < PriorityByte(bit, mask));
    }
  }

  lemma FullMaskKeeps(p: bv32, mask: bv32)
    requires p < 16 && mask & 0xf0 == 0xf0
    ensures ((p << 4) & mask) & 0xff == (p << 4) & 0xff
  {
  }

  lemma FullMaskOrders(p: bv32, q: bv32, mask: bv32)
    requires p < q < 16 && mask & 0xf0 == 0xf0
    ensures PriorityByte(p, mask) < PriorityByte(q, mask)
  {
    FullMaskKeeps(p, mask);
    FullMaskKeeps(q, mask);
    assert (p << 4) & 0xff < (q << 4) & 0xff;
  }

  /** A priority that the mask turns into 0. */
  lemma LostBit(mask: bv32) returns (bit: bv32)
    requires mask & 0xf0 != 0xf0
    ensures 0 < bit < 16 && ((bit << 4) & mask) & 0xff == 0
  {
    bit := if mask & 0x10 == 0 then 1 else if mask & 0x20 == 0 then 2 else if mask & 0x40 == 0 then 4 else 8;
  }

  /** Sixteen values leave room for sixteen levels of preemption. */
  lemma {:induction false} PriorityPigeonhole(ps: seq<int>)
    requires forall i :: 0 <= i < |ps| ==> IsPriority(ps[i])
    requires forall i, j :: 0 <= i < j < |ps| ==> ps[j] < ps[i]
    ensures |ps| <= 16
    ensures |ps| > 0 ==> ps[|ps| - 1] <= 256 - 16 * |ps|
  {
    if |ps| > 1 {
      var front := ps[..|ps| - 1];
      PriorityPigeonhole(front);
      assert front[|front| - 1] == ps[|ps| - 2];
      MultiplesStep(ps[|ps| - 1], ps[|ps| - 2]);
    }
  }

  lemma MultiplesStep(a: int, b: int)
    requires IsPriority(a) && IsPriority(b) && a < b
    ensures a + 16 <= b
  {
  }

  // ---- bsp_common_interrupt_handler --------------------------------------------------

  /** Up to and including __enable_irq().  The store has no bounds check in the source; a store
      past the array is left undescribed here, and module RunTheorems shows there is none. */
  function Opened(m: Machine, icciar: Word, idBase: nat): Machine {
    m.(ids := if m.pointer < 32 then m.ids[m.pointer := InterruptNumber(icciar, idBase)] else m.ids,
       pointer := (m.pointer + 1) % 256,
       cpsr := m.cpsr.(irqOff := false))
  }

  /** The end: __disable_irq() and the decrement. */
  function Closed(m: Machine): Machine {
    m.(cpsr := m.cpsr.(irqOff := true), pointer := if m.pointer == 0 then 255 else m.pointer - 1)
  }

  class Dispatcher {
    const idBase: nat      // BSP_CORTEX_VECTOR_TABLE_ENTRIES
    const vectorMax: nat   // BSP_ICU_VECTOR_MAX_ENTRIES
    const table: seq<nat>  // g_vector_table
    var m: Machine
    var badIds: seq<nat>   // what r8_bad_intid was called with

    /** bsp_common_interrupt_handler before the handler runs: `handler` is the table entry it
        branches to, if any. */
    method Begin(icciar: Word) returns (spurious: bool, handler: seq<nat>)
      requires m.pointer < 32 && |table| == vectorMax + idBase
      modifies this
      ensures spurious <==> icciar % 1024 == 1023
      ensures m == if spurious then old(m) else Opened(old(m), icciar, idBase)
      // the id is on top of the stack, above the others, and interrupts are on
      ensures !spurious ==>
                && Numbers(m.ids[old(m).pointer], icciar, idBase) && m.pointer == old(m).pointer + 1 && !m.cpsr.irqOff
                && forall k :: 0 <= k < 32 && k != old(m).pointer ==> m.ids[k] == old(m).ids[k]
      ensures handler == if !spurious && icciar % 1024 < vectorMax then [table[icciar % 1024]] else []
      ensures badIds == if !spurious && icciar % 1024 >= vectorMax then old(badIds) + [icciar % 1024] else old(badIds)
    {
      NumberIs(icciar, idBase);
      var intId := IntId(icciar);
      spurious := intId == 1023;
      handler := [];
      if !spurious {
        m := m.(ids := m.ids[m.pointer := (intId - idBase) % 0x10000]);
        m := m.(pointer := (m.pointer + 1) % 256);
        m := m.(cpsr := m.cpsr.(irqOff := false));
        if intId < vectorMax {
          handler := [table[intId]];
        } else {
          badIds := badIds + [intId];
        }
      }
    }

    /** bsp_common_interrupt_handler after the handler has returned. */
    method End()
      modifies this
      ensures m == Closed(old(m)) && badIds == old(badIds)
      ensures m.cpsr.irqOff && (old(m).pointer > 0 ==> m.pointer == old(m).pointer - 1) && m.ids == old(m).ids
    {
      m := m.(cpsr := m.cpsr.(irqOff := true));
      m := m.(pointer := if m.pointer == 0 then 255 else m.pointer - 1);
    }
  }
}
