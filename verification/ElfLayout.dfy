/** What the two ELF tools do to a file given by its fields: an ELF32 file laid out little-endian as
    the System V gABI (chapter 4, "ELF Header", and chapter 5, "Program Header") has it. */
module ElfLayout {
  import opened ElfPatch

  // ---- files from fields -------------------------------------------------------------

  type Half = h: int | 0 <= h < 0x10000
  type Word32 = w: int | 0 <= w < 0x1_0000_0000

  /** One program header, p_type first. */
  datatype Phdr = Phdr(
    kind: Word32, offset: Word32, vaddr: Word32, paddr: Word32, filesz: Word32, memsz: Word32,
    flags: Word32, align: Word32)

  /** An ELF32 file: the header's fields in order, what lies between it and the program headers, those,
      and the rest.  The identification bytes after the data encoding are free. */
  datatype Elf = Elf(
    class32: Byte, data: Byte, ident: seq<Byte>, kind: Half, machine: Half, version: Word32, entry: Word32,
    shoff: Word32, flags: Word32, ehsize: Half, phentsize: Half, shentsize: Half, shnum: Half, shstrndx: Half,
    gap: seq<Byte>, phs: seq<Phdr>, rest: seq<Byte>)
  {
    predicate Valid() {
      |ident| == 10 && |phs| < 0x10000 && Phoff() < 0x1_0000_0000
    }

    function Phoff(): nat {
      52 + |gap|
    }
  }

  function EhBytes(e: Elf): (b: seq<Byte>)
    requires e.Valid()
    ensures |b| == 52
  {
    [0x7f, 0x45, 0x4c, 0x46] + [e.class32, e.data] + e.ident
    + (Le2(e.kind) + Le2(e.machine) + Le4(e.version) + Le4(e.entry))
    + Le4(e.Phoff()) + Le4(e.shoff) + Le4(e.flags)
    + Le2(e.ehsize) + Le2(e.phentsize) + Le2(|e.phs|)
    + (Le2(e.shentsize) + Le2(e.shnum) + Le2(e.shstrndx))
  }

  /** The whole file. */
  function Bytes(e: Elf): seq<Byte>
    requires e.Valid()
  {
    EhBytes(e) + e.gap + PhTable(e.phs) + e.rest
  }

  function Le2(h: Half): (b: seq<Byte>)
    ensures |b| == 2
  {
    [h % 0x100, h / 0x100]
  }

  function Le4(w: Word32): (b: seq<Byte>)
    ensures |b| == 4
  {
    [w % 0x100, w / 0x100 % 0x100, w / 0x10000 % 0x100, w / 0x1000000]
  }

  function PhBytes(p: Phdr): (b: seq<Byte>)
    ensures |b| == 32
  {
    Words([p.kind, p.offset, p.vaddr, p.paddr, p.filesz, p.memsz, p.flags, p.align])
  }

  function Words(ws: seq<Word32>): (b: seq<Byte>)
    ensures |b| == 4 * |ws|
  {
    if ws == [] then [] else Words(ws[..|ws| - 1]) + Le4(ws[|ws| - 1])
  }

  function PhTable(phs: seq<Phdr>): (b: seq<Byte>)
    ensures |b| == 32 * |phs|
  {
    if phs == [] then [] else PhTable(phs[..|phs| - 1]) + PhBytes(phs[|phs| - 1])
  }

  // ---- reading them back -------------------------------------------------------------

  lemma ReadHalf(b: seq<Byte>, o: nat, h: Half)
    requires o + 2 <= |b| && b[o..o + 2] == Le2(h)
    ensures U16(b, o) == h
  {
    assert b[o] == b[o..o + 2][0] && b[o + 1] == b[o..o + 2][1];
  }

  lemma ReadWord(b: seq<Byte>, o: nat, w: Word32)
    requires o + 4 <= |b| && b[o..o + 4] == Le4(w)
    ensures U32(b, o) == w
  {
    var s := b[o..o + 4];
    assert b[o] == s[0] && b[o + 1] == s[1] && b[o + 2] == s[2] && b[o + 3] == s[3];
    Assembles(w);
  }

  lemma Assembles(w: Word32)
    ensures w % 0x100 + 0x100 * (w / 0x100 % 0x100) + 0x10000 * (w / 0x10000 % 0x100) + 0x1000000 * (w / 0x1000000) == w
  {
    assert w / 0x100 / 0x100 == w / 0x10000 && w / 0x10000 / 0x100 == w / 0x1000000;
  }

  lemma {:induction false} TableAt(phs: seq<Phdr>, i: nat)
    requires i < |phs|
    ensures PhTable(phs)[32 * i..32 * i + 32] == PhBytes(phs[i])
  {
    var front := phs[..|phs| - 1];
    if i < |front| {
      TableAt(front, i);
      assert PhTable(phs)[32 * i..32 * i + 32] == PhTable(front)[32 * i..32 * i + 32];
    }
  }

  /** The i-th header's bytes lie where e_phoff and the entry size say. */
  lemma HeaderAt(e: Elf, i: nat)
    requires e.Valid() && i < |e.phs|
    ensures var o := e.Phoff() + 32 * i; o + 32 <= |Bytes(e)| && Bytes(e)[o..o + 32] == PhBytes(e.phs[i])
  {
    TableAt(e.phs, i);
    var o := e.Phoff() + 32 * i;
    assert Bytes(e)[o..o + 32] == PhTable(e.phs)[32 * i..32 * i + 32];
  }

  lemma FieldsAt(b: seq<Byte>, o: nat, p: Phdr)
    requires o + 32 <= |b| && b[o..o + 32] == PhBytes(p)
    ensures U32(b, o) == p.kind && U32(b, o + 8) == p.vaddr && U32(b, o + 12) == p.paddr && U32(b, o + 16) == p.filesz
  {
    var ws := [p.kind, p.offset, p.vaddr, p.paddr, p.filesz, p.memsz, p.flags, p.align];
    WordsAt(ws, 0);
    WordsAt(ws, 2);
    WordsAt(ws, 3);
    WordsAt(ws, 4);
    WordFrom(b, o, PhBytes(p), 0, p.kind);
    WordFrom(b, o, PhBytes(p), 8, p.vaddr);
    WordFrom(b, o, PhBytes(p), 12, p.paddr);
    WordFrom(b, o, PhBytes(p), 16, p.filesz);
  }

  lemma WordFrom(b: seq<Byte>, o: nat, s: seq<Byte>, f: nat, w: Word32)
    requires o + |s| <= |b| && b[o..o + |s|] == s && f + 4 <= |s| && s[f..f + 4] == Le4(w)
    ensures U32(b, o + f) == w
  {
    SliceOfSlice(b, o, |s|, f);
    ReadWord(b, o + f, w);
  }

  lemma SliceOfSlice(b: seq<Byte>, o: nat, n: nat, f: nat)
    requires o + n <= |b| && f + 4 <= n
    ensures b[o..o + n][f..f + 4] == b[o + f..o + f + 4]
  {
    var x, y := b[o..o + n][f..f + 4], b[o + f..o + f + 4];
    assert |x| == |y|;
    forall k | 0 <= k < 4 ensures x[k] == y[k] {
      assert x[k] == b[o..o + n][f + k] == b[o + (f + k)];
    }
  }

  lemma {:induction false} WordsAt(ws: seq<Word32>, i: nat)
    requires i < |ws|
    ensures Words(ws)[4 * i..4 * i + 4] == Le4(ws[i])
  {
    var front := ws[..|ws| - 1];
    if i < |front| {
      WordsAt(front, i);
      assert Words(ws)[4 * i..4 * i + 4] == Words(front)[4 * i..4 * i + 4];
    }
  }

  /** What the tools read of the header. */
  lemma HeaderReads(e: Elf)
    requires e.Valid()
    ensures ReadHeader(Bytes(e)) ==
              if e.class32 != 1 || e.data != 1 then WrongClass else Header.Table(e.Phoff(), e.phentsize, |e.phs|)
  {
    var b, h := Bytes(e), EhBytes(e);
    assert b[..4] == h[..4] == [0x7f, 0x45, 0x4c, 0x46];
    assert b[4] == h[4] && b[5] == h[5];
    assert b[0x1C..0x20] == h[0x1C..0x20] == Le4(e.Phoff());
    assert b[0x2A..0x2C] == h[0x2A..0x2C] == Le2(e.phentsize);
    assert b[0x2C..0x2E] == h[0x2C..0x2E] == Le2(|e.phs|);
    ReadWord(b, 0x1C, e.Phoff());
    ReadHalf(b, 0x2A, e.phentsize);
    ReadHalf(b, 0x2C, |e.phs|);
  }

  // ---- what the tools are for --------------------------------------------------------

  /** The headers patch-elf-phdr.py is to null: loadable, nothing in the file, in DDR. */
  predicate InDdr(p: Phdr) {
    p.kind == 1 && p.filesz == 0 && p.paddr >= 0x40000000
  }

  /** The headers null_phdr_at.py is to null. */
  predicate Wanted(p: Phdr, targets: set<int>) {
    p.kind == 1 && p.vaddr in targets
  }

  predicate Chosen(rule: Rule, p: Phdr) {
    match rule
    case DdrEmpty => InDdr(p)
    case At(targets) => Wanted(p, targets)
  }

  /** The same file with the chosen headers' type set to 0 and nothing else changed. */
  function Nulled(rule: Rule, e: Elf): Elf {
    e.(phs := seq(|e.phs|, i requires 0 <= i < |e.phs| =>
                    if Chosen(rule, e.phs[i]) then e.phs[i].(kind := 0) else e.phs[i]))
  }

  lemma ChosenIsHit(rule: Rule, e: Elf, i: nat)
    requires e.Valid() && i < |e.phs|
    ensures At32(e.Phoff(), i) + 32 <= |Bytes(e)|
    ensures Hit(rule, Bytes(e), At32(e.Phoff(), i)) <==> Chosen(rule, e.phs[i])
  {
    HeaderAt(e, i);
    FieldsAt(Bytes(e), At32(e.Phoff(), i), e.phs[i]);
  }

  lemma AllFit(e: Elf)
    requires e.Valid()
    ensures Fits(Bytes(e), e.Phoff(), 32, |e.phs|)
  {
    forall i {:trigger Off(e.Phoff(), 32, i)} | 0 <= i < |e.phs| ensures Off(e.Phoff(), 32, i) + 24 <= |Bytes(e)| {
      HeaderAt(e, i);
    }
  }

  /** Byte j of header i. */
  lemma ByteAt(e: Elf, i: nat, j: nat)
    requires e.Valid() && i < |e.phs| && j < 32
    ensures e.Phoff() + 32 * i + j < |Bytes(e)| && Bytes(e)[e.Phoff() + 32 * i + j] == PhBytes(e.phs[i])[j]
  {
    HeaderAt(e, i);
    var o := e.Phoff() + 32 * i;
    assert Bytes(e)[o..o + 32][j] == Bytes(e)[o + j];
  }

  lemma TypeByte(p: Phdr, j: nat)
    requires j < 32
    ensures PhBytes(p.(kind := 0))[j] == if j < 4 then 0 else PhBytes(p)[j]
  {
    var ws := [p.kind, p.offset, p.vaddr, p.paddr, p.filesz, p.memsz, p.flags, p.align];
    OneWord(ws, j);
    OneWord(ws[0 := 0], j);
    assert ws[0 := 0] == [0, p.offset, p.vaddr, p.paddr, p.filesz, p.memsz, p.flags, p.align];
  }

  lemma OneWord(ws: seq<Word32>, j: nat)
    requires |ws| == 8 && j < 32
    ensures Words(ws)[j] == Le4(ws[j / 4])[j % 4]
  {
    WordsAt(ws, j / 4);
    var i := j / 4;
    assert Words(ws)[4 * i..4 * i + 4][j % 4] == Words(ws)[j];
  }

  /** Byte k of the table, header by header. */
  lemma NulledByte(rule: Rule, e: Elf, i: nat, j: nat)
    requires e.Valid() && i < |e.phs| && j < 32
    ensures var k := e.Phoff() + 32 * i + j;
            k < |Bytes(e)| == |Bytes(Nulled(rule, e))|
            && Bytes(Nulled(rule, e))[k] == if Chosen(rule, e.phs[i]) && j < 4 then 0 else Bytes(e)[k]
  {
    ByteAt(e, i, j);
    ByteAt(Nulled(rule, e), i, j);
    TypeByte(e.phs[i], j);
  }

  lemma NulledOutside(rule: Rule, e: Elf, k: nat)
    requires e.Valid() && k < |Bytes(e)| && !(e.Phoff() <= k < e.Phoff() + 32 * |e.phs|)
    ensures |Bytes(Nulled(rule, e))| == |Bytes(e)| && Bytes(Nulled(rule, e))[k] == Bytes(e)[k]
  {
    var n := Nulled(rule, e);
    assert EhBytes(n) == EhBytes(e);
  }

  lemma PassByte(rule: Rule, e: Elf, k: nat)
    requires e.Valid() && k < |Bytes(e)| && Fits(Bytes(e), e.Phoff(), 32, |e.phs|)
    ensures |Bytes(Nulled(rule, e))| == |Bytes(e)|
    ensures Pass(rule, Bytes(e), e.Phoff(), 32, |e.phs|)[k] == Bytes(Nulled(rule, e))[k]
  {
    var b, phoff, n := Bytes(e), e.Phoff(), |e.phs|;
    PassBytes(rule, b, phoff, n, k);
    if phoff <= k < phoff + 32 * n {
      var i, j := (k - phoff) / 32, (k - phoff) % 32;
      NulledByte(rule, e, i, j);
      ChosenIsHit(rule, e, i);
      OwnTypeWordAt(rule, b, phoff, n, i, j);
    } else {
      NulledOutside(rule, e, k);
    }
  }

  lemma OwnTypeWordAt(rule: Rule, b: seq<Byte>, phoff: nat, n: nat, i: nat, j: nat)
    requires Fits(b, phoff, 32, n) && i < n && j < 32 && At32(phoff, i) + 32 <= |b|
    ensures InHitType(rule, b, phoff, n, At32(phoff, i) + j) <==> j < 4 && Hit(rule, b, At32(phoff, i))
  {
    var k := At32(phoff, i) + j;
    if InHitType(rule, b, phoff, n, k) {
      var h :| 0 <= h < n && At32(phoff, h) <= k < At32(phoff, h) + 4 && Hit(rule, b, At32(phoff, h));
      assert h == i;
    }
  }

  lemma PassIsNulled(rule: Rule, e: Elf)
    requires e.Valid()
    ensures Fits(Bytes(e), e.Phoff(), 32, |e.phs|)
    ensures Pass(rule, Bytes(e), e.Phoff(), 32, |e.phs|) == Bytes(Nulled(rule, e))
  {
    AllFit(e);
    forall k | 0 <= k < |Bytes(e)|
      ensures |Bytes(Nulled(rule, e))| == |Bytes(e)|
      ensures Pass(rule, Bytes(e), e.Phoff(), 32, |e.phs|)[k] == Bytes(Nulled(rule, e))[k]
    {
      PassByte(rule, e, k);
    }
    PassByte(rule, e, 0);
  }

  lemma HitsAreChosen(rule: Rule, e: Elf)
    requires e.Valid() && Fits(Bytes(e), e.Phoff(), 32, |e.phs|)
    ensures forall i :: i in Hits(rule, Bytes(e), e.Phoff(), 32, |e.phs|) <==>
                          0 <= i < |e.phs| && Chosen(rule, e.phs[i])
  {
    HitsAre(rule, Bytes(e), e.Phoff(), |e.phs|);
    forall i | 0 <= i < |e.phs| ensures Hit(rule, Bytes(e), At32(e.Phoff(), i)) <==> Chosen(rule, e.phs[i]) {
      ChosenIsHit(rule, e, i);
    }
  }

  function LoadCount(phs: seq<Phdr>): nat {
    if phs == [] then 0 else LoadCount(phs[..|phs| - 1]) + if phs[|phs| - 1].kind == 1 then 1 else 0
  }

  lemma {:induction false} LoadsCounted(e: Elf, n: nat)
    requires e.Valid() && n <= |e.phs| && Fits(Bytes(e), e.Phoff(), 32, n)
    ensures |Loads(Bytes(e), e.Phoff(), n)| == LoadCount(e.phs[..n])
    decreases n
  {
    if n > 0 {
      LoadsCounted(e, n - 1);
      HeaderAt(e, n - 1);
      FieldsAt(Bytes(e), At32(e.Phoff(), n - 1), e.phs[n - 1]);
      assert e.phs[..n][..n - 1] == e.phs[..n - 1];
    }
  }

  /** PATCHING A FILE nulls the loadable headers that have nothing in the file and lie in DDR, and
      leaves every other byte; it reports exactly those and how many loadable ones are left; a
      file of another class, byte order or entry size is left alone. */
  lemma PatchNullsExactly(e: Elf)
    requires e.Valid()
    ensures var right := e.class32 == 1 && e.data == 1 && e.phentsize == 32;
            PatchedFile(Bytes(e)) == if right then Bytes(Nulled(DdrEmpty, e)) else Bytes(e)
    ensures var r := PatchResult(Bytes(e));
            if e.class32 != 1 || e.data != 1 then r == Refused(WrongClass)
            else if e.phentsize != 32 then r == WrongEntrySize
            else ReportsExactly(r, e)
  {
    HeaderReads(e);
    if e.class32 == 1 && e.data == 1 && e.phentsize == 32 {
      PassIsNulled(DdrEmpty, e);
      PatchReports(e);
    }
  }

  /** What patch-elf-phdr.py reports of a file of the right kind. */
  ghost predicate ReportsExactly(r: Result, e: Elf) {
    if forall i :: 0 <= i < |e.phs| ==> !InDdr(e.phs[i]) then r == Unchanged
    else r.Patched? && r.left == LoadCount(Nulled(DdrEmpty, e).phs)
         && forall i :: i in r.changed <==> 0 <= i < |e.phs| && InDdr(e.phs[i])
  }

  lemma PatchReports(e: Elf)
    requires e.Valid() && ReadHeader(Bytes(e)) == Header.Table(e.Phoff(), 32, |e.phs|)
    requires Fits(Bytes(e), e.Phoff(), 32, |e.phs|)
    requires Pass(DdrEmpty, Bytes(e), e.Phoff(), 32, |e.phs|) == Bytes(Nulled(DdrEmpty, e))
    ensures ReportsExactly(PatchResult(Bytes(e)), e)
  {
    var hits := Hits(DdrEmpty, Bytes(e), e.Phoff(), 32, |e.phs|);
    HitsAreChosen(DdrEmpty, e);
    CountsLeft(e);
    if hits != [] {
      assert hits[0] in hits;
    }
  }

  lemma CountsLeft(e: Elf)
    requires e.Valid() && ReadHeader(Bytes(e)) == Header.Table(e.Phoff(), 32, |e.phs|)
    requires Fits(Bytes(e), e.Phoff(), 32, |e.phs|)
    requires Pass(DdrEmpty, Bytes(e), e.Phoff(), 32, |e.phs|) == Bytes(Nulled(DdrEmpty, e))
    ensures var r, hits := PatchResult(Bytes(e)), Hits(DdrEmpty, Bytes(e), e.Phoff(), 32, |e.phs|);
            if hits == [] then r == Unchanged
            else r.Patched? && r.changed == hits && r.left == LoadCount(Nulled(DdrEmpty, e).phs)
  {
    var n := Nulled(DdrEmpty, e);
    SelfCheckPasses(Bytes(e));
    AllFit(n);
    LoadsCounted(n, |n.phs|);
    assert n.phs[..|n.phs|] == n.phs;
  }

  /** null_phdr_at.py nulls the loadable headers at the given addresses, and nothing else. */
  lemma NullAtNullsExactly(e: Elf, targets: set<int>)
    requires e.Valid() && e.phentsize == 32
    ensures NulledFile(Bytes(e), targets) ==
              if e.class32 == 1 && e.data == 1 then Bytes(Nulled(At(targets), e)) else Bytes(e)
    ensures ReadHeader(Bytes(e)) ==
              if e.class32 == 1 && e.data == 1 then Header.Table(e.Phoff(), 32, |e.phs|) else WrongClass
    ensures Fits(Bytes(e), e.Phoff(), 32, |e.phs|)
    ensures forall i :: i in Hits(At(targets), Bytes(e), e.Phoff(), 32, |e.phs|) <==>
                          0 <= i < |e.phs| && Wanted(e.phs[i], targets)
  {
    HeaderReads(e);
    PassIsNulled(At(targets), e);
    HitsAreChosen(At(targets), e);
  }

  /** Anything that does not start with the magic is refused and left alone. */
  lemma NotElfIsRefused(b: seq<Byte>, targets: set<int>)
    requires |b| < 4 || b[0] != 0x7f || b[1] != 'E' as int || b[2] != 'L' as int || b[3] != 'F' as int
    ensures PatchResult(b) == Refused(NotElf) && PatchedFile(b) == b && NulledFile(b, targets) == b
  {
    if |b| >= 4 {
      assert b[..4][0] == b[0] && b[..4][1] == b[1] && b[..4][2] == b[2] && b[..4][3] == b[3];
    }
  }
}
