/** bsp_irq_cfg: packing the select-interrupt table into the INTR8SEL registers, three 10-bit
    fields to a register. */
module SelectPacking {

  const PER_REGISTER := 3     // BSP_PRV_SPI_SEL_SETTING_NUM
  const FIELD: bv32 := 0x3FF  // R_INTC_INTR8SEL0_R8SPI0_SEL0_Msk

  // ---- one register ------------------------------------------------------------------

  /** A register's three fields and the two bits that belong to none. */
  datatype Fields = Fields(f0: bv32, f1: bv32, f2: bv32, spare: bv32) {
    function At(j: nat): bv32
      requires j < 3
    {
      if j == 0 then f0 else if j == 1 then f1 else f2
    }

    function Set(j: nat, e: bv32): Fields
      requires j < 3
    {
      if j == 0 then this.(f0 := e) else if j == 1 then this.(f1 := e) else this.(f2 := e)
    }
  }

  function Unpacked(reg: bv32): Fields {
    Fields(reg & FIELD, (reg >> 10) & FIELD, (reg >> 20) & FIELD, reg >> 30)
  }

  /** Clear the field, then or in the event; the shift BSP_PRV_SPI_SEL_LENGTH * sel_bit_num is
      0, 10 or 20. */
  method Replace(reg: bv32, j: nat, e: bv32) returns (r: bv32)
    requires j < 3 && e < 0x400
    ensures Unpacked(r) == Unpacked(reg).Set(j, e)
  {
    if j == 0 {
      First(reg, e);
      return (reg & !FIELD) | e;
    } else if j == 1 {
      Second(reg, e);
      return (reg & !(FIELD << 10)) | (e << 10);
    } else {
      Third(reg, e);
      return (reg & !(FIELD << 20)) | (e << 20);
    }
  }

  lemma First(reg: bv32, e: bv32)
    requires e < 0x400
    ensures Unpacked((reg & !FIELD) | e) == Unpacked(reg).Set(0, e)
  {
  }

  lemma Second(reg: bv32, e: bv32)
    requires e < 0x400
    ensures Unpacked((reg & !(FIELD << 10)) | (e << 10)) == Unpacked(reg).Set(1, e)
  {
  }

  lemma Third(reg: bv32, e: bv32)
    requires e < 0x400
    ensures Unpacked((reg & !(FIELD << 20)) | (e << 20)) == Unpacked(reg).Set(2, e)
  {
  }

  /** The fields are ten bits each from bit 0, 10 and 20 on; two bits are left above them. */
  lemma Reassembled(reg: bv32)
    ensures reg == (reg & 0x3ff) | (((reg >> 10) & 0x3ff) << 10) | (((reg >> 20) & 0x3ff) << 20) | ((reg >> 30) << 30)
  {
  }

  /** The fields and the spare bits are all there is to a register. */
  lemma UnpackedIsInjective(x: bv32, y: bv32)
    requires Unpacked(x) == Unpacked(y)
    ensures x == y
  {
  }

  // ---- the table ---------------------------------------------------------------------

  /** How far the loop gets: to the first NONE from `start` on, or through `count` entries. */
  function Stop(table: seq<bv32>, none: bv32, start: nat, count: nat): (n: nat)
    requires start + count <= |table|
    ensures start <= n <= start + count && forall k :: start <= k < n ==> table[k] != none
    ensures n < start + count ==> table[n] == none
    decreases count
  {
    if count == 0 || table[start] == none then start else Stop(table, none, start + 1, count - 1)
  }

  function UnpackAll(regs: seq<bv32>): seq<Fields> {
    seq(|regs|, r requires 0 <= r < |regs| => Unpacked(regs[r]))
  }

  /** Field n % 3 of register n / 3. */
  function Slot(fs: seq<Fields>, n: nat): bv32
    requires n < 3 * |fs|
  {
    fs[n / 3].At(n % 3)
  }

  /** Unpacking gives back the table from start to stop; every other field, and the bits outside
      the fields, keep their contents. */
  ghost predicate Packed(fs: seq<Fields>, was: seq<Fields>, table: seq<bv32>, start: nat, stop: nat) {
    && |fs| == |was| && stop <= |table|
    && (forall n :: 0 <= n < 3 * |fs| ==> Slot(fs, n) == if start <= n < stop then table[n] else Slot(was, n))
    && (forall r :: 0 <= r < |fs| ==> fs[r].spare == was[r].spare)
  }

  /** Bits 10j to 10j + 9 of a register. */
  function Bits(reg: bv32, j: nat): bv32
    requires j < 3
  {
    if j == 0 then reg & 0x3ff else if j == 1 then (reg >> 10) & 0x3ff else (reg >> 20) & 0x3ff
  }

  /** Packed, said of the registers themselves. */
  lemma PackedBits(regs: seq<bv32>, was: seq<bv32>, table: seq<bv32>, start: nat, stop: nat)
    requires Packed(UnpackAll(regs), UnpackAll(was), table, start, stop)
    ensures |regs| == |was|
    ensures forall n :: start <= n < stop && n < 3 * |regs| ==> Bits(regs[n / 3], n % 3) == table[n]
    ensures forall n :: 0 <= n < 3 * |regs| && !(start <= n < stop) ==>
                          Bits(regs[n / 3], n % 3) == Bits(was[n / 3], n % 3)
    ensures forall r :: 0 <= r < |regs| ==> regs[r] >> 30 == was[r] >> 30
  {
    var fs, ws := UnpackAll(regs), UnpackAll(was);
    forall n | 0 <= n < 3 * |regs|
      ensures Bits(regs[n / 3], n % 3) == if start <= n < stop then table[n] else Bits(was[n / 3], n % 3)
    {
      SlotIsBits(regs, n);
      SlotIsBits(was, n);
      assert Slot(fs, n) == if start <= n < stop then table[n] else Slot(ws, n);
    }
    forall r | 0 <= r < |regs| ensures regs[r] >> 30 == was[r] >> 30 {
      assert fs[r].spare == ws[r].spare;
    }
  }

  lemma SlotIsBits(regs: seq<bv32>, n: nat)
    requires n < 3 * |regs|
    ensures Slot(UnpackAll(regs), n) == Bits(regs[n / 3], n % 3)
  {
  }

  lemma PackOne(fs: seq<Fields>, was: seq<Fields>, table: seq<bv32>, start: nat, n: nat)
    requires Packed(fs, was, table, start, n) && start <= n < |table| && n < 3 * |fs|
    ensures Packed(fs[n / 3 := fs[n / 3].Set(n % 3, table[n])], was, table, start, n + 1)
  {
    var after := fs[n / 3 := fs[n / 3].Set(n % 3, table[n])];
    forall k | 0 <= k < 3 * |fs|
      ensures Slot(after, k) == if start <= k < n + 1 then table[k] else Slot(was, k)
    {
      assert Slot(fs, k) == if start <= k < n then table[k] else Slot(was, k);
      assert k / 3 == n / 3 && k % 3 == n % 3 <==> k == n;
    }
  }

  /** Read, replace the field, write back. */
  method WriteField(regs: array<bv32>, n: nat, e: bv32)
    requires n < 3 * regs.Length && e < 0x400
    modifies regs
    ensures var was := UnpackAll(old(regs[..])); UnpackAll(regs[..]) == was[n / 3 := was[n / 3].Set(n % 3, e)]
  {
    var reg, bit := n / PER_REGISTER, n % PER_REGISTER;
    var spiSel := Replace(regs[reg], bit, e);
    regs[reg] := spiSel;
  }

  /** The loop of bsp_irq_cfg over g_interrupt_event_link_select. */
  method ConfigureSelect(regs: array<bv32>, table: seq<bv32>, none: bv32, start: nat, count: nat)
    requires start + count <= |table| && start + count <= 3 * regs.Length
    requires forall k :: start <= k < Stop(table, none, start, count) ==> table[k] < 0x400
    modifies regs
    ensures Packed(UnpackAll(regs[..]), UnpackAll(old(regs[..])), table, start, Stop(table, none, start, count))
  {
    ghost var was := UnpackAll(regs[..]);
    var selNum := start;
    var cnt := 0;
    while cnt < count
      invariant cnt <= count && selNum == start + cnt
      invariant Stop(table, none, start, count) == Stop(table, none, selNum, count - cnt)
      invariant Packed(UnpackAll(regs[..]), was, table, start, selNum)
    {
      if table[selNum] == none {
        break;
      }
      ghost var before := UnpackAll(regs[..]);
      PackOne(before, was, table, start, selNum);
      WriteField(regs, selNum, table[selNum]);
      selNum := selNum + 1;
      cnt := cnt + 1;
    }
  }
}
