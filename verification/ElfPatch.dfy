/** patch-elf-phdr.py and null_phdr_at.py: turning PT_LOAD program headers of an ELF32
    little-endian file into PT_NULL, in place. */
module ElfPatch {

  type Byte = b: int | 0 <= b < 256

  const PT_NULL := 0
  const PT_LOAD := 1
  const DDR_MIN := 0x40000000

  // ---- reading -----------------------------------------------------------------------

  function U16(b: seq<Byte>, o: nat): nat
    requires o + 2 <= |b|
  {
    b[o] as int + 0x100 * b[o + 1] as int
  }

  function U32(b: seq<Byte>, o: nat): nat
    requires o + 4 <= |b|
  {
    b[o] as int + 0x100 * b[o + 1] as int + 0x10000 * b[o + 2] as int + 0x1000000 * b[o + 3] as int
  }

  /** Which headers a tool nulls: those of DDR segments with nothing in the file, or those at
      given virtual addresses. */
  datatype Rule = DdrEmpty | At(targets: set<int>)

  /** The rule applies to the 24 bytes of header at o: type, offset, vaddr, paddr, filesz, memsz. */
  predicate Hit(rule: Rule, b: seq<Byte>, o: nat)
    requires o + 24 <= |b|
  {
    && U32(b, o) == PT_LOAD
    && match rule
       case DdrEmpty => U32(b, o + 16) == 0 && U32(b, o + 12) >= DDR_MIN
       case At(targets) => U32(b, o + 8) in targets
  }

  function Off(phoff: nat, size: nat, i: nat): nat {
    phoff + i * size
  }

  predicate Fits(b: seq<Byte>, phoff: nat, size: nat, n: nat) {
    forall i {:trigger Off(phoff, size, i)} :: 0 <= i < n ==> Off(phoff, size, i) + 24 <= |b|
  }

  datatype Header = NotElf | WrongClass | Short | Table(phoff: nat, size: nat, n: nat)

  /** The checks both tools start with, and the three fields they read. */
  function ReadHeader(b: seq<Byte>): (h: Header)
    ensures h.Table? ==> |b| >= 0x2E
  {
    if |b| < 4 || b[..4] != [0x7f, 0x45, 0x4c, 0x46] then NotElf
    else if |b| > 4 && b[4] != 1 then WrongClass
    else if |b| > 5 && b[5] != 1 then WrongClass
    else if |b| < 0x2E then Short
    else Table(U32(b, 0x1C), U16(b, 0x2A), U16(b, 0x2C))
  }

  // ---- the rewriting pass ------------------------------------------------------------

  function Zeroed(b: seq<Byte>, o: nat): seq<Byte>
    requires o + 4 <= |b|
  {
    b[o := 0][o + 1 := 0][o + 2 := 0][o + 3 := 0]
  }

  /** The bytes after the loop has visited the first n headers, one after the other. */
  function Pass(rule: Rule, b: seq<Byte>, phoff: nat, size: nat, n: nat): (r: seq<Byte>)
    requires Fits(b, phoff, size, n)
    ensures |r| == |b|
  {
    if n == 0 then b else
      var p := Pass(rule, b, phoff, size, n - 1);
      var o := Off(phoff, size, n - 1);
      if Hit(rule, p, o) then Zeroed(p, o) else p
  }

  /** The headers the loop changes, in order. */
  function Hits(rule: Rule, b: seq<Byte>, phoff: nat, size: nat, n: nat): seq<nat>
    requires Fits(b, phoff, size, n)
  {
    if n == 0 then [] else
      Hits(rule, b, phoff, size, n - 1)
      + if Hit(rule, Pass(rule, b, phoff, size, n - 1), Off(phoff, size, n - 1)) then [n - 1] else []
  }

  // ---- what it does to a table of 32-byte entries ------------------------------------

  function At32(phoff: nat, i: nat): nat {
    Off(phoff, 32, i)
  }

  /** Byte k belongs to the type word of one of the first n headers, and the rule hits it. */
  ghost predicate InHitType(rule: Rule, b: seq<Byte>, phoff: nat, n: nat, k: nat)
    requires Fits(b, phoff, 32, n)
  {
    exists i {:trigger At32(phoff, i)} ::
      0 <= i < n && At32(phoff, i) <= k < At32(phoff, i) + 4 && Hit(rule, b, At32(phoff, i))
  }

  lemma SameHit(rule: Rule, x: seq<Byte>, y: seq<Byte>, o: nat)
    requires o + 24 <= |x| == |y| && x[o..o + 24] == y[o..o + 24]
    ensures Hit(rule, x, o) == Hit(rule, y, o) && U32(x, o) == U32(y, o)
  {
    assert forall k :: o <= k < o + 24 ==> x[k] == x[o..o + 24][k - o] == y[k];
  }

  /** ONLY TYPE WORDS CHANGE.  Each byte after the pass is 0 in the type words of the headers
      that match, judged on the original file, and the original byte everywhere else. */
  lemma {:induction false} PassBytes(rule: Rule, b: seq<Byte>, phoff: nat, n: nat, k: nat)
    requires Fits(b, phoff, 32, n) && k < |b|
    ensures Pass(rule, b, phoff, 32, n)[k] == if InHitType(rule, b, phoff, n, k) then 0 else b[k]
    decreases n
  {
    if n > 0 {
      var o := At32(phoff, n - 1);
      assert Fits(b, phoff, 32, n - 1);
      PassBytes(rule, b, phoff, n - 1, k);
      HeaderAhead(rule, b, phoff, n - 1, n - 1);
      HitTypeStep(rule, b, phoff, n, k);
    }
  }

  lemma HitTypeStep(rule: Rule, b: seq<Byte>, phoff: nat, n: nat, k: nat)
    requires n > 0 && Fits(b, phoff, 32, n) && Fits(b, phoff, 32, n - 1)
    ensures var o := At32(phoff, n - 1);
            InHitType(rule, b, phoff, n, k) <==>
              InHitType(rule, b, phoff, n - 1, k) || (o <= k < o + 4 && Hit(rule, b, o))
  {
    if InHitType(rule, b, phoff, n - 1, k) {
      var i :| 0 <= i < n - 1 && At32(phoff, i) <= k < At32(phoff, i) + 4 && Hit(rule, b, At32(phoff, i));
      assert 0 <= i < n;
    }
  }

  /** The header the loop is about to look at is still as it was in the file. */
  lemma {:induction false} HeaderAhead(rule: Rule, b: seq<Byte>, phoff: nat, n: nat, m: nat)
    requires Fits(b, phoff, 32, m + 1) && n <= m
    ensures Fits(b, phoff, 32, n)
    ensures var o := At32(phoff, m); Pass(rule, b, phoff, 32, n)[o..] == b[o..]
    ensures Hit(rule, Pass(rule, b, phoff, 32, n), At32(phoff, m)) == Hit(rule, b, At32(phoff, m))
    decreases n
  {
    var o := At32(phoff, m);
    assert Off(phoff, 32, m) + 24 <= |b|;
    assert Fits(b, phoff, 32, n);
    if n > 0 {
      HeaderAhead(rule, b, phoff, n - 1, m);
      var p := Pass(rule, b, phoff, 32, n - 1);
      var q := At32(phoff, n - 1);
      assert q + 4 <= o;
      assert Zeroed(p, q)[o..] == p[o..];
    }
    var r := Pass(rule, b, phoff, 32, n);
    assert r[o..o + 24] == r[o..][..24] == b[o..][..24] == b[o..o + 24];
    SameHit(rule, r, b, o);
  }

  /** The headers changed are those that match in the original file. */
  lemma {:induction false} HitsAre(rule: Rule, b: seq<Byte>, phoff: nat, n: nat)
    requires Fits(b, phoff, 32, n)
    ensures forall i :: i in Hits(rule, b, phoff, 32, n) <==> 0 <= i < n && Hit(rule, b, At32(phoff, i))
    decreases n
  {
    if n > 0 {
      HitsAre(rule, b, phoff, n - 1);
      HeaderAhead(rule, b, phoff, n - 1, n - 1);
    }
  }

  /** After a pass, another rule (or the same one) hits a header exactly when it did before and the
      first pass left it alone. */
  lemma HitAfter(first: Rule, second: Rule, b: seq<Byte>, phoff: nat, n: nat, i: nat)
    requires Fits(b, phoff, 32, n) && i < n
    ensures var o := At32(phoff, i); var r := Pass(first, b, phoff, 32, n);
            && o + 24 <= |b|
            && Hit(second, r, o) == (Hit(second, b, o) && !Hit(first, b, o))
            && U32(r, o) == if Hit(first, b, o) then PT_NULL else U32(b, o)
  {
    var o := At32(phoff, i);
    var r := Pass(first, b, phoff, 32, n);
    assert Off(phoff, 32, i) + 24 <= |b|;
    forall k | o <= k < o + 24
      ensures r[k] == if k < o + 4 && Hit(first, b, o) then 0 else b[k]
    {
      PassBytes(first, b, phoff, n, k);
      OwnTypeWord(first, b, phoff, n, i, k);
    }
    if !Hit(first, b, o) {
      assert r[o..o + 24] == b[o..o + 24];
      SameHit(second, r, b, o);
    }
  }

  lemma OwnTypeWord(rule: Rule, b: seq<Byte>, phoff: nat, n: nat, i: nat, k: nat)
    requires Fits(b, phoff, 32, n) && i < n && At32(phoff, i) <= k < At32(phoff, i) + 24 <= |b|
    ensures InHitType(rule, b, phoff, n, k) <==> k < At32(phoff, i) + 4 && Hit(rule, b, At32(phoff, i))
  {
    if InHitType(rule, b, phoff, n, k) {
      var j :| 0 <= j < n && At32(phoff, j) <= k < At32(phoff, j) + 4 && Hit(rule, b, At32(phoff, j));
      assert j == i;
    }
  }

  // ---- properties --------------------------------------------------------------------

  /** THE SELF-CHECK PASSES and the tool is idempotent: after a pass no header matches its rule. */
  lemma SecondPassChangesNothing(rule: Rule, b: seq<Byte>, phoff: nat, n: nat)
    requires Fits(b, phoff, 32, n)
    ensures var r := Pass(rule, b, phoff, 32, n);
            && Fits(r, phoff, 32, n) && Hits(rule, r, phoff, 32, n) == [] && Pass(rule, r, phoff, 32, n) == r
            && forall i :: 0 <= i < n ==> !Hit(rule, r, At32(phoff, i))
  {
    var r := Pass(rule, b, phoff, 32, n);
    forall i | 0 <= i < n ensures At32(phoff, i) + 24 <= |r| && !Hit(rule, r, At32(phoff, i)) {
      HitAfter(rule, rule, b, phoff, n, i);
    }
    assert Fits(r, phoff, 32, n);
    NoHits(rule, r, phoff, n);
  }

  lemma {:induction false} NoHits(rule: Rule, b: seq<Byte>, phoff: nat, n: nat)
    requires Fits(b, phoff, 32, n) && forall i :: 0 <= i < n ==> !Hit(rule, b, At32(phoff, i))
    ensures Hits(rule, b, phoff, 32, n) == [] && Pass(rule, b, phoff, 32, n) == b
    decreases n
  {
    if n > 0 {
      NoHits(rule, b, phoff, n - 1);
      assert !Hit(rule, b, At32(phoff, n - 1));
    }
  }

  /** THE TOOLS COMMUTE: in either order a header is nulled exactly when one of the rules hits it in
      the original file. */
  lemma PassesCommute(one: Rule, two: Rule, b: seq<Byte>, phoff: nat, n: nat)
    requires Fits(b, phoff, 32, n)
    ensures var r, q := Pass(one, b, phoff, 32, n), Pass(two, b, phoff, 32, n);
            && Fits(r, phoff, 32, n) && Fits(q, phoff, 32, n)
            && Pass(two, r, phoff, 32, n) == Pass(one, q, phoff, 32, n)
            && forall k :: 0 <= k < |b| ==>
                 Pass(two, r, phoff, 32, n)[k] ==
                   if InHitType(one, b, phoff, n, k) || InHitType(two, b, phoff, n, k) then 0 else b[k]
  {
    var r, q := Pass(one, b, phoff, 32, n), Pass(two, b, phoff, 32, n);
    assert Fits(r, phoff, 32, n) && Fits(q, phoff, 32, n);
    forall k | 0 <= k < |b|
      ensures Pass(two, r, phoff, 32, n)[k] ==
                if InHitType(one, b, phoff, n, k) || InHitType(two, b, phoff, n, k) then 0 else b[k]
      ensures Pass(one, q, phoff, 32, n)[k] ==
                if InHitType(one, b, phoff, n, k) || InHitType(two, b, phoff, n, k) then 0 else b[k]
    {
      Union(one, two, b, phoff, n, k);
      Union(two, one, b, phoff, n, k);
    }
  }

  lemma Union(one: Rule, two: Rule, b: seq<Byte>, phoff: nat, n: nat, k: nat)
    requires Fits(b, phoff, 32, n) && k < |b|
    ensures var r := Pass(one, b, phoff, 32, n);
            && Fits(r, phoff, 32, n)
            && Pass(two, r, phoff, 32, n)[k] ==
                 if InHitType(one, b, phoff, n, k) || InHitType(two, b, phoff, n, k) then 0 else b[k]
  {
    var r := Pass(one, b, phoff, 32, n);
    assert Fits(r, phoff, 32, n);
    PassBytes(one, b, phoff, n, k);
    PassBytes(two, r, phoff, n, k);
    UnionType(one, two, b, phoff, n, k);
  }

  lemma UnionType(one: Rule, two: Rule, b: seq<Byte>, phoff: nat, n: nat, k: nat)
    requires Fits(b, phoff, 32, n) && Fits(Pass(one, b, phoff, 32, n), phoff, 32, n)
    ensures InHitType(one, b, phoff, n, k) || InHitType(two, Pass(one, b, phoff, 32, n), phoff, n, k)
            <==> InHitType(one, b, phoff, n, k) || InHitType(two, b, phoff, n, k)
  {
    var r := Pass(one, b, phoff, 32, n);
    forall i | 0 <= i < n
      ensures Hit(two, r, At32(phoff, i)) == (Hit(two, b, At32(phoff, i)) && !Hit(one, b, At32(phoff, i)))
    {
      HitAfter(one, two, b, phoff, n, i);
    }
    if InHitType(two, r, phoff, n, k) {
      var i :| 0 <= i < n && At32(phoff, i) <= k < At32(phoff, i) + 4 && Hit(two, r, At32(phoff, i));
      assert InHitType(two, b, phoff, n, k);
    }
    if InHitType(two, b, phoff, n, k) && !InHitType(one, b, phoff, n, k) {
      var i :| 0 <= i < n && At32(phoff, i) <= k < At32(phoff, i) + 4 && Hit(two, b, At32(phoff, i));
      assert InHitType(two, r, phoff, n, k);
    }
  }

  datatype Segment = Segment(offset: nat, vaddr: nat, paddr: nat, filesz: nat, memsz: nat)

  function SegmentAt(b: seq<Byte>, o: nat): Segment
    requires o + 24 <= |b|
  {
    Segment(U32(b, o + 4), U32(b, o + 8), U32(b, o + 12), U32(b, o + 16), U32(b, o + 20))
  }

  /** The PT_LOAD segments of the table; with a rule, those it does not hit. */
  function Loads(b: seq<Byte>, phoff: nat, n: nat): seq<Segment>
    requires Fits(b, phoff, 32, n)
  {
    if n == 0 then [] else
      var o := At32(phoff, n - 1);
      Loads(b, phoff, n - 1) + if U32(b, o) == PT_LOAD then [SegmentAt(b, o)] else []
  }

  function LoadsKept(rule: Rule, b: seq<Byte>, phoff: nat, n: nat): seq<Segment>
    requires Fits(b, phoff, 32, n)
  {
    if n == 0 then [] else
      var o := At32(phoff, n - 1);
      LoadsKept(rule, b, phoff, n - 1) + if U32(b, o) == PT_LOAD && !Hit(rule, b, o) then [SegmentAt(b, o)] else []
  }

  /** WHAT THE LOADER SEES.  The PT_LOAD list after the pass is the original list without the
      segments the rule hits, order and all fields kept. */
  lemma {:induction false} LoadListIsFiltered(rule: Rule, b: seq<Byte>, phoff: nat, n: nat, m: nat)
    requires Fits(b, phoff, 32, n) && m <= n
    ensures Fits(b, phoff, 32, m) && Fits(Pass(rule, b, phoff, 32, n), phoff, 32, m)
    ensures Loads(Pass(rule, b, phoff, 32, n), phoff, m) == LoadsKept(rule, b, phoff, m)
    decreases m
  {
    if m > 0 {
      LoadListIsFiltered(rule, b, phoff, n, m - 1);
      HitAfter(rule, rule, b, phoff, n, m - 1);
      SegmentKept(rule, b, phoff, n, m - 1);
    }
  }

  lemma SegmentKept(rule: Rule, b: seq<Byte>, phoff: nat, n: nat, i: nat)
    requires Fits(b, phoff, 32, n) && i < n
    ensures At32(phoff, i) + 24 <= |b|
    ensures SegmentAt(Pass(rule, b, phoff, 32, n), At32(phoff, i)) == SegmentAt(b, At32(phoff, i))
  {
    var o := At32(phoff, i);
    var r := Pass(rule, b, phoff, 32, n);
    assert Off(phoff, 32, i) + 24 <= |b|;
    forall k | o + 4 <= k < o + 24 ensures r[k] == b[k] {
      PassBytes(rule, b, phoff, n, k);
      OwnTypeWord(rule, b, phoff, n, i, k);
    }
  }

  /** The DDR rule drops no segment that has bytes in the file. */
  lemma {:induction false} NothingFromTheFileIsDropped(b: seq<Byte>, phoff: nat, n: nat, s: Segment)
    requires Fits(b, phoff, 32, n) && s in Loads(b, phoff, n) && (s.filesz > 0 || s.paddr < DDR_MIN)
    ensures s in LoadsKept(DdrEmpty, b, phoff, n)
    decreases n
  {
    var o := At32(phoff, n - 1);
    if s in Loads(b, phoff, n - 1) {
      NothingFromTheFileIsDropped(b, phoff, n - 1, s);
    } else {
      assert s == SegmentAt(b, o);
    }
  }

  /** BYTES COPIED FROM THE FILE.  A stretch of the file reads the same after the pass exactly
      when it contains the first byte of no header that was changed. */
  lemma ContentsKeptIff(rule: Rule, b: seq<Byte>, phoff: nat, n: nat, from: nat, to: nat)
    requires Fits(b, phoff, 32, n) && from <= to <= |b|
    ensures Pass(rule, b, phoff, 32, n)[from..to] == b[from..to]
            <==> forall i :: 0 <= i < n && Hit(rule, b, At32(phoff, i)) ==> !(from <= At32(phoff, i) < to)
  {
    var r := Pass(rule, b, phoff, 32, n);
    forall k {:trigger r[k]} | 0 <= k < |b|
      ensures r[k] == b[k] <==> forall i :: 0 <= i < n && Hit(rule, b, At32(phoff, i)) ==> At32(phoff, i) != k
    {
      ByteKeptIff(rule, b, phoff, n, k);
    }
    SlicesAgreeIff(r, b, from, to);
  }

  lemma SlicesAgreeIff(x: seq<Byte>, y: seq<Byte>, from: nat, to: nat)
    requires |x| == |y| && from <= to <= |x|
    ensures x[from..to] == y[from..to] <==> forall k :: from <= k < to ==> x[k] == y[k]
  {
    if x[from..to] == y[from..to] {
      forall k | from <= k < to ensures x[k] == y[k] {
        assert x[k] == x[from..to][k - from] && y[k] == y[from..to][k - from];
      }
    }
  }

  /** PT_LOAD is 1, so of a type word only the first byte changes. */
  lemma ByteKeptIff(rule: Rule, b: seq<Byte>, phoff: nat, n: nat, k: nat)
    requires Fits(b, phoff, 32, n) && k < |b|
    ensures Pass(rule, b, phoff, 32, n)[k] == b[k]
            <==> forall i :: 0 <= i < n && Hit(rule, b, At32(phoff, i)) ==> At32(phoff, i) != k
  {
    PassBytes(rule, b, phoff, n, k);
    forall i | 0 <= i < n && Hit(rule, b, At32(phoff, i))
      ensures var o := At32(phoff, i); b[o] == 1 && b[o + 1] == b[o + 2] == b[o + 3] == 0
    {
    }
    if InHitType(rule, b, phoff, n, k) && b[k] != 0 {
      var i :| 0 <= i < n && At32(phoff, i) <= k < At32(phoff, i) + 4 && Hit(rule, b, At32(phoff, i));
      assert k == At32(phoff, i);
    }
    if i :| 0 <= i < n && Hit(rule, b, At32(phoff, i)) && At32(phoff, i) == k {
      assert InHitType(rule, b, phoff, n, k);
    }
  }

  /** With the table after the header fields, the header itself is not touched. */
  lemma HeaderKept(rule: Rule, b: seq<Byte>, phoff: nat, n: nat)
    requires ReadHeader(b) == Table(phoff, 32, n) && Fits(b, phoff, 32, n) && phoff >= 0x2E
    ensures ReadHeader(Pass(rule, b, phoff, 32, n)) == ReadHeader(b)
  {
    var r := Pass(rule, b, phoff, 32, n);
    forall k | 0 <= k < 0x2E ensures r[k] == b[k] {
      PassBytes(rule, b, phoff, n, k);
    }
    assert r[..4] == b[..4];
  }

  // ---- the tools ---------------------------------------------------------------------

  datatype Result =
    | Refused(why: Header)          // not an ELF32 little-endian file
    | WrongEntrySize
    | Raised                        // an exception before the file is written
    | Unchanged
    | Patched(changed: seq<nat>, left: nat)
    | CheckFailed(bad: seq<nat>)

  /** patch-elf-phdr.py, its result as a function of the file. */
  function PatchResult(b: seq<Byte>): Result {
    match ReadHeader(b)
    case NotElf => Refused(NotElf)
    case WrongClass => Refused(WrongClass)
    case Short => Raised
    case Table(phoff, size, n) =>
      if size != 32 then WrongEntrySize
      else if !Fits(b, phoff, 32, n) then Raised
      else
        var hits := Hits(DdrEmpty, b, phoff, 32, n);
        if hits == [] then Unchanged else Checked(Pass(DdrEmpty, b, phoff, 32, n), phoff, n, hits)
  }

  /** The self-check on the file as written back, and the count of segments left. */
  function Checked(c: seq<Byte>, phoff: nat, n: nat, hits: seq<nat>): Result
    requires Fits(c, phoff, 32, n)
  {
    var bad := Matching(c, phoff, n);
    if bad != [] then CheckFailed(bad) else Patched(hits, |Loads(c, phoff, n)|)
  }

  function Matching(c: seq<Byte>, phoff: nat, n: nat): seq<nat>
    requires Fits(c, phoff, 32, n)
  {
    if n == 0 then []
    else Matching(c, phoff, n - 1) + if Hit(DdrEmpty, c, At32(phoff, n - 1)) then [n - 1] else []
  }

  function PatchedFile(b: seq<Byte>): seq<Byte> {
    match ReadHeader(b)
    case Table(phoff, size, n) =>
      if size == 32 && Fits(b, phoff, 32, n) then Pass(DdrEmpty, b, phoff, 32, n) else b
    case _ => b
  }

  /** main of patch-elf-phdr.py: the file is rewritten only when something matched, and then
      read again and checked. */
  method PatchElf(file: array<Byte>) returns (r: Result)
    modifies file
    ensures r == PatchResult(old(file[..])) && file[..] == PatchedFile(old(file[..]))
  {
    var h := ReadHeader(file[..]);
    match h {
      case NotElf => r := Refused(NotElf);
      case WrongClass => r := Refused(WrongClass);
      case Short => r := Raised;
      case Table(phoff, size, n) =>
        if size != 32 {
          r := WrongEntrySize;
        } else {
          r := PatchTable(file, phoff, n);
        }
    }
  }

  method PatchTable(file: array<Byte>, phoff: nat, n: nat) returns (r: Result)
    modifies file
    ensures var b := old(file[..]);
            if !Fits(b, phoff, 32, n) then r == Raised && file[..] == b
            else file[..] == Pass(DdrEmpty, b, phoff, 32, n)
                 && r == (if Hits(DdrEmpty, b, phoff, 32, n) == [] then Unchanged
                          else Checked(file[..], phoff, n, Hits(DdrEmpty, b, phoff, 32, n)))
  {
    ghost var start := file[..];
    var b := Copy(file);
    var ok, changed := Rewrite(b, DdrEmpty, phoff, 32, n);
    if !ok {
      return Raised;
    }
    if changed == [] {
      NothingChanged(DdrEmpty, start, phoff, n);
      return Unchanged;
    }
    Store(file, b);
    r := CheckFile(file, phoff, n, changed);
  }

  /** bytearray(f.read()) and f.write(b). */
  method Copy(file: array<Byte>) returns (b: array<Byte>)
    ensures fresh(b) && b[..] == file[..]
  {
    b := new Byte[file.Length](k requires 0 <= k < file.Length reads file => file[k]);
  }

  method Store(file: array<Byte>, b: array<Byte>)
    requires file.Length == b.Length
    modifies file
    ensures file[..] == old(b[..])
  {
    forall k | 0 <= k < file.Length {
      file[k] := b[k];
    }
  }

  lemma NothingChanged(rule: Rule, b: seq<Byte>, phoff: nat, n: nat)
    requires Fits(b, phoff, 32, n) && Hits(rule, b, phoff, 32, n) == []
    ensures Pass(rule, b, phoff, 32, n) == b
  {
    HitsAre(rule, b, phoff, n);
    NoHits(rule, b, phoff, n);
  }

  /** The loop over the headers that both tools share.  An access past the end raises. */
  method Rewrite(b: array<Byte>, rule: Rule, phoff: nat, size: nat, n: nat) returns (ok: bool, changed: seq<nat>)
    modifies b
    ensures ok <==> Fits(old(b[..]), phoff, size, n)
    ensures ok ==> b[..] == Pass(rule, old(b[..]), phoff, size, n) && changed == Hits(rule, old(b[..]), phoff, size, n)
  {
    ghost var start := b[..];
    changed := [];
    var i := 0;
    while i < n
      invariant i <= n && Fits(start, phoff, size, i)
      invariant b[..] == Pass(rule, start, phoff, size, i) && changed == Hits(rule, start, phoff, size, i)
    {
      var o := Off(phoff, size, i);
      if o + 24 > b.Length {
        return false, [];
      }
      if Hit(rule, b[..], o) {
        b[o], b[o + 1], b[o + 2], b[o + 3] := 0, 0, 0, 0;
        changed := changed + [i];
      }
      i := i + 1;
    }
    ok := true;
  }

  /** The self-check on the file read again. */
  method CheckFile(c: array<Byte>, phoff: nat, n: nat, changed: seq<nat>) returns (r: Result)
    requires Fits(c[..], phoff, 32, n)
    ensures r == Checked(c[..], phoff, n, changed)
  {
    var bad := Remaining(c, phoff, n);
    if bad != [] {
      return CheckFailed(bad);
    }
    var left := CountLoads(c, phoff, n);
    return Patched(changed, left);
  }

  /** Headers that still match. */
  method Remaining(c: array<Byte>, phoff: nat, n: nat) returns (bad: seq<nat>)
    requires Fits(c[..], phoff, 32, n)
    ensures bad == Matching(c[..], phoff, n)
  {
    bad := [];
    for i := 0 to n
      invariant Fits(c[..], phoff, 32, i) && bad == Matching(c[..], phoff, i)
    {
      if Hit(DdrEmpty, c[..], Off(phoff, 32, i)) {
        bad := bad + [i];
      }
    }
  }

  method CountLoads(c: array<Byte>, phoff: nat, n: nat) returns (left: nat)
    requires Fits(c[..], phoff, 32, n)
    ensures left == |Loads(c[..], phoff, n)|
  {
    left := 0;
    for i := 0 to n
      invariant Fits(c[..], phoff, 32, i) && left == |Loads(c[..], phoff, i)|
    {
      if U32(c[..], Off(phoff, 32, i)) == PT_LOAD {
        left := left + 1;
      }
    }
  }

  function NulledFile(b: seq<Byte>, targets: set<int>): seq<Byte> {
    match ReadHeader(b)
    case Table(phoff, size, n) => if Fits(b, phoff, size, n) then Pass(At(targets), b, phoff, size, n) else b
    case _ => b
  }

  /** null_phdr_at.py; it writes the file back even when nothing matched. */
  method NullAt(file: array<Byte>, targets: set<int>) returns (r: Result)
    modifies file
    ensures file[..] == NulledFile(old(file[..]), targets)
    ensures match ReadHeader(old(file[..])) {
              case Table(phoff, size, n) =>
                var b := old(file[..]);
                r == (if !Fits(b, phoff, size, n) then Raised
                      else if Hits(At(targets), b, phoff, size, n) == [] then Unchanged
                      else Patched(Hits(At(targets), b, phoff, size, n), 0))
              case h => r == (if h == Short then Raised else Refused(h))
            }
  {
    var data := Copy(file);
    var h := ReadHeader(data[..]);
    if !h.Table? {
      return if h == Short then Raised else Refused(h);
    }
    var ok, changed := Rewrite(data, At(targets), h.phoff, h.size, h.n);
    if !ok {
      return Raised;
    }
    Store(file, data);
    r := if changed == [] then Unchanged else Patched(changed, 0);
  }

  lemma {:induction false} NothingMatches(c: seq<Byte>, phoff: nat, n: nat)
    requires Fits(c, phoff, 32, n) && forall i :: 0 <= i < n ==> !Hit(DdrEmpty, c, At32(phoff, i))
    ensures Matching(c, phoff, n) == []
    decreases n
  {
    if n > 0 {
      NothingMatches(c, phoff, n - 1);
      assert !Hit(DdrEmpty, c, At32(phoff, n - 1));
    }
  }

  lemma {:induction false} MatchingIs(c: seq<Byte>, phoff: nat, n: nat, i: nat)
    requires Fits(c, phoff, 32, n)
    ensures i in Matching(c, phoff, n) <==> i < n && Hit(DdrEmpty, c, At32(phoff, i))
    decreases n
  {
    if n > 0 {
      MatchingIs(c, phoff, n - 1, i);
    }
  }

  /** The self-check fails exactly when a header still matches, and names those that do. */
  lemma SelfCheckFinds(c: seq<Byte>, phoff: nat, n: nat, hits: seq<nat>)
    requires Fits(c, phoff, 32, n)
    ensures var r := Checked(c, phoff, n, hits);
            && (r.CheckFailed? <==> exists i :: 0 <= i < n && Hit(DdrEmpty, c, At32(phoff, i)))
            && (r.CheckFailed? ==> forall i: nat :: i in r.bad <==> i < n && Hit(DdrEmpty, c, At32(phoff, i)))
  {
    forall i: nat ensures i in Matching(c, phoff, n) <==> i < n && Hit(DdrEmpty, c, At32(phoff, i)) {
      MatchingIs(c, phoff, n, i);
    }
    var bad := Matching(c, phoff, n);
    if bad != [] {
      assert bad[0] in bad;
    }
  }

  /** THE SELF-CHECK ALWAYS PASSES, on every file; what the tool reports as changed are the
      headers that match, what it reports as left are the segments it keeps. */
  lemma SelfCheckPasses(b: seq<Byte>)
    ensures !PatchResult(b).CheckFailed?
    ensures PatchResult(b).Patched? ==>
              var h := ReadHeader(b);
              && h.Table? && Fits(b, h.phoff, 32, h.n)
              && PatchResult(b).left == |LoadsKept(DdrEmpty, b, h.phoff, h.n)|
              && forall i :: i in PatchResult(b).changed <==> 0 <= i < h.n && Hit(DdrEmpty, b, At32(h.phoff, i))
  {
    var h := ReadHeader(b);
    if h.Table? && h.size == 32 && Fits(b, h.phoff, 32, h.n) {
      SecondPassChangesNothing(DdrEmpty, b, h.phoff, h.n);
      NothingMatches(Pass(DdrEmpty, b, h.phoff, 32, h.n), h.phoff, h.n);
      LoadListIsFiltered(DdrEmpty, b, h.phoff, h.n, h.n);
      HitsAre(DdrEmpty, b, h.phoff, h.n);
    }
  }

  /** IDEMPOTENT.  For a table after the header, running the tool again finds nothing to do. */
  lemma PatchTwice(b: seq<Byte>)
    requires ReadHeader(b).Table? ==> ReadHeader(b).phoff >= 0x2E
    ensures PatchedFile(PatchedFile(b)) == PatchedFile(b)
    ensures PatchResult(b).Patched? ==> PatchResult(PatchedFile(b)) == Unchanged
  {
    var h := ReadHeader(b);
    if h.Table? && h.size == 32 && Fits(b, h.phoff, 32, h.n) {
      HeaderKept(DdrEmpty, b, h.phoff, h.n);
      SecondPassChangesNothing(DdrEmpty, b, h.phoff, h.n);
    }
  }

  /** Running both tools on a file whose table has 32-byte entries after the header, in either
      order, gives the same file. */
  lemma ToolsCommute(b: seq<Byte>, targets: set<int>)
    requires ReadHeader(b).Table? ==> ReadHeader(b).phoff >= 0x2E && ReadHeader(b).size == 32
    ensures NulledFile(PatchedFile(b), targets) == PatchedFile(NulledFile(b, targets))
  {
    var h := ReadHeader(b);
    if h.Table? && Fits(b, h.phoff, 32, h.n) {
      HeaderKept(DdrEmpty, b, h.phoff, h.n);
      HeaderKept(At(targets), b, h.phoff, h.n);
      PassesCommute(DdrEmpty, At(targets), b, h.phoff, h.n);
    }
  }
}
