/** Stack painting and scanning (r8_paint_one, r8_used_one): the scan is the exact high-water
    mark of the writes since painting, and painting spares the frame in use. */
module Watermark {
  import opened Arm

  const PAINT: Word := 0xA5A5A5A5

  // ---- specification -----------------------------------------------------------------

  /** How many words from the base up to the first that is not paint. */
  function Clean(ws: seq<Word>): (k: nat)
    ensures k <= |ws| && forall i :: 0 <= i < k ==> ws[i] == PAINT
    ensures k < |ws| ==> ws[k] != PAINT
  {
    if ws == [] || ws[0] != PAINT then 0 else
      var k := 1 + Clean(ws[1..]);
      assert forall i :: 1 <= i < k ==> ws[i] == ws[1..][i - 1];
      k
  }

  /** Bytes between the limit and the lowest word that is not paint. */
  function Used(ws: seq<Word>): nat {
    4 * (|ws| - Clean(ws))
  }

  /** How many words r8_paint_one paints when the stack occupies [base, limit) and its sp is sp. */
  function Reach(base: Word, limit: Word, sp: Word): nat
    requires 64 <= base <= limit
  {
    if base < sp <= limit then
      var top := (sp - 64) / 4 * 4;
      if top <= base then 0 else (top - base) / 4
    else (limit - base) / 4
  }

  lemma ReachIs(n: nat, base: Word, sp: Word)
    requires 64 <= base && base % 4 == 0 && base + 4 * n < WORDS
    ensures Reach(base, base + 4 * n, sp) <= n
    ensures forall k :: 0 <= k < n ==>
              (k < Reach(base, base + 4 * n, sp) <==> !(base < sp <= base + 4 * n) || base + 4 * k + 4 <= sp - 64)
  {
  }

  function Painted(ws: seq<Word>, k: nat): seq<Word>
    requires k <= |ws|
  {
    seq(k, _ => PAINT) + ws[k..]
  }

  datatype Store = Store(at: nat, value: Word)

  /** The stack after a history of stores. */
  function After(ws: seq<Word>, h: seq<Store>): (r: seq<Word>)
    ensures |r| == |ws|
    decreases |h|
  {
    if h == [] then ws else
      var last := h[|h| - 1];
      var r := After(ws, h[..|h| - 1]);
      if last.at < |r| then r[last.at := last.value] else r
  }

  /** The lowest position any of the stores reached, at most n. */
  function Lowest(h: seq<Store>, n: nat): (r: nat)
    ensures r <= n && (forall i :: 0 <= i < |h| ==> r <= h[i].at || h[i].at >= n)
    ensures r == n || exists i :: 0 <= i < |h| && h[i].at == r
    decreases |h|
  {
    if h == [] then n else
      var r := Lowest(h[..|h| - 1], n);
      var at := h[|h| - 1].at;
      assert r == n || exists i :: 0 <= i < |h| - 1 && h[i].at == r;
      if at < r then at else r
  }

  function Min(a: nat, b: nat): nat {
    if a < b then a else b
  }

  // ---- the C functions ---------------------------------------------------------------

  /** r8_paint_one on the stack whose words are `stack`, the lowest at address base.  No stack
      lies in the first 64 bytes of the address space. */
  method PaintOne(stack: array<Word>, base: Word, sp: Word) returns (painted: bool)
    requires 64 <= base && base % 4 == 0 && base + 4 * stack.Length < WORDS
    modifies stack
    ensures var k := Reach(base, base + 4 * stack.Length, sp);
            k <= stack.Length && stack[..] == Painted(old(stack[..]), k)
    // all of a stack not in use; below sp - 64 of the one in use
    ensures forall k :: 0 <= k < stack.Length ==>
              stack[k] == if base < sp <= base + 4 * stack.Length && base + 4 * k + 4 > sp - 64
                          then old(stack[k]) else PAINT
    ensures painted <==> !(base < sp <= base + 4 * stack.Length) || sp - 64 >= base + 4
  {
    ReachIs(stack.Length, base, sp);
    var limit := base + 4 * stack.Length;
    var top := limit;
    if sp > base && sp <= limit {
      top := (sp - 64) - (sp - 64) % 4;
      if top <= base {
        assert stack[..] == Painted(stack[..], 0);
        return false;
      }
    }
    var p := base;
    ghost var k := 0;
    ghost var n := (top - base) / 4;
    while p < top
      invariant p == base + 4 * k && k <= n
      invariant forall i :: 0 <= i < k ==> stack[i] == PAINT
      invariant forall i :: k <= i < stack.Length ==> stack[i] == old(stack[i])
    {
      stack[(p - base) / 4] := PAINT;
      p := p + 4;
      k := k + 1;
    }
    painted := true;
    assert n == Reach(base, limit, sp);
  }

  /** r8_used_one. */
  method UsedOne(stack: array<Word>, base: Word) returns (used: Word)
    requires base % 4 == 0 && base + 4 * stack.Length < WORDS
    ensures used == Used(stack[..])
    ensures used % 4 == 0 && used / 4 <= stack.Length
    ensures forall i :: 0 <= i < stack.Length - used / 4 ==> stack[i] == PAINT
    ensures used > 0 ==> stack[stack.Length - used / 4] != PAINT
  {
    var p, limit := base, base + 4 * stack.Length;
    while p < limit && stack[(p - base) / 4] == PAINT
      invariant base <= p <= limit && p % 4 == 0
      invariant forall i :: 0 <= i < (p - base) / 4 ==> stack[i] == PAINT
    {
      p := p + 4;
    }
    used := limit - p;
  }

  // ---- properties --------------------------------------------------------------------

  /** Painting touches no byte at or above sp - 64 when the core stands on this stack, and paints every
      word below; all of a stack not in use. */
  lemma PaintSparesLiveFrame(ws: seq<Word>, base: Word, sp: Word, k: nat)
    requires 64 <= base && base % 4 == 0 && base + 4 * |ws| < WORDS && k < |ws|
    ensures var r := Reach(base, base + 4 * |ws|, sp);
            var spared := base < sp <= base + 4 * |ws| && base + 4 * k + 4 > sp - 64;
            r <= |ws| && Painted(ws, r)[k] == (if spared then ws[k] else PAINT)
  {
    ReachIs(|ws|, base, sp);
  }

  lemma {:induction false} AfterAt(ws: seq<Word>, h: seq<Store>, k: nat)
    requires k < |ws|
    ensures (forall i :: 0 <= i < |h| ==> h[i].at != k) ==> After(ws, h)[k] == ws[k]
    ensures (forall i :: 0 <= i < |h| ==> h[i].value != PAINT) && ws[k] != PAINT ==> After(ws, h)[k] != PAINT
    ensures (forall i :: 0 <= i < |h| ==> h[i].value != PAINT) && (exists i :: 0 <= i < |h| && h[i].at == k) ==>
              After(ws, h)[k] != PAINT
    decreases |h|
  {
    if h != [] {
      var front := h[..|h| - 1];
      AfterAt(ws, front, k);
      assert forall i :: 0 <= i < |front| ==> front[i] == h[i];
      if (exists i :: 0 <= i < |h| && h[i].at == k) && h[|h| - 1].at != k {
        var i :| 0 <= i < |h| && h[i].at == k;
        assert front[i].at == k;
      }
    }
  }

  /** The scan never claims more than was used, and is exact exactly when the lowest word reached
      does not hold paint again. */
  lemma {:induction false} ScanIsExactIff(ws: seq<Word>, h: seq<Store>)
    ensures var low := Min(Lowest(h, |ws|), Clean(ws));
            && Used(After(ws, h)) <= 4 * (|ws| - low)
            && (Used(After(ws, h)) == 4 * (|ws| - low) <==> low == |ws| || After(ws, h)[low] != PAINT)
  {
    var low := Min(Lowest(h, |ws|), Clean(ws));
    forall k | 0 <= k < low ensures After(ws, h)[k] == PAINT {
      AfterAt(ws, h, k);
    }
  }

  /** EXACT HIGH-WATER MARK.  After painting k words, whatever is stored afterwards as long as no
      store writes the paint value itself: the scan is the distance from the limit to the
      lowest word stored to or not clean from the start, and later stores never make it shrink. */
  lemma HighWaterMark(ws: seq<Word>, k: nat, h: seq<Store>, more: seq<Store>)
    requires k <= |ws| && forall i :: 0 <= i < |h| ==> h[i].value != PAINT
    requires forall i :: 0 <= i < |more| ==> more[i].value != PAINT
    ensures var p := Painted(ws, k);
            && Clean(p) >= k
            && Used(After(p, h)) == 4 * (|ws| - Min(Lowest(h, |ws|), Clean(p)))
            && Used(After(p, h + more)) >= Used(After(p, h))
  {
    var p := Painted(ws, k);
    Exact(p, h);
    Exact(p, h + more);
    var low := Lowest(h, |ws|);
    if low < |ws| {
      var i :| 0 <= i < |h| && h[i].at == low;
      assert (h + more)[i].at == low;
    }
  }

  lemma Exact(ws: seq<Word>, h: seq<Store>)
    requires forall i :: 0 <= i < |h| ==> h[i].value != PAINT
    ensures Used(After(ws, h)) == 4 * (|ws| - Min(Lowest(h, |ws|), Clean(ws)))
  {
    var low := Min(Lowest(h, |ws|), Clean(ws));
    ScanIsExactIff(ws, h);
    if low < |ws| {
      AfterAt(ws, h, low);
    }
  }

  /** A store of the paint value can hide use: the stack was used to its last word, the scan
      reports nothing. */
  lemma PaintedStoreHidesUse()
    ensures var h := [Store(0, PAINT)]; Lowest(h, 1) == 0 && Used(After([PAINT], h)) == 0
  {
    var h := [Store(0, PAINT)];
    assert h[..0] == [];
    assert After([PAINT], h[..0]) == [PAINT];
    assert After([PAINT], h) == [PAINT];
    assert Clean([PAINT]) == 1;
  }
}
