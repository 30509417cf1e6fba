/** The fault record: r8_blackbox_init and r8_blackbox_fault, as written and one store at a time. */
module FaultRecord {
  import opened Arm
  import opened Options

  const MAGIC: Word := 0x42423852
  const VERSION: Word := 21

  type Byte = b: int | 0 <= b < 256
  type Name = s: seq<Byte> | |s| == 16 witness seq(16, _ => 0)

  /** The fields of r8_blackbox_t these two functions use, in layout order. */
  datatype Rec = Rec(magic: Word, version: Word, boots: Word, kind: Word, arg0: Word, arg1: Word, lr: Word, task: Name)

  /** One call of r8_blackbox_fault; the name is what precedes the terminator of `task`. */
  datatype Call = Call(kind: Word, arg0: Word, arg1: Word, lr: Word, name: Option<seq<Byte>>) {
    ghost predicate Valid() {
      name.Some? ==> 0 !in name.value
    }
  }

  const NO_NAME: Name := [0, 0, 0, 0, 0, 0, 0, 0, 0, 0, 0, 0, 0, 0, 0, 0]

  // ---- steps -------------------------------------------------------------------------

  /** Clear(k) is the k-th store of memset, ascending: seven words, then sixteen bytes. */
  datatype Pc =
    | Begin | Clear(k: nat) | Magic | Version | Boots | Quiet
    | Test | Arg0 | Arg1 | Lr | Text(i: nat) | Kind | Halted

  function Zeroed(r: Rec, k: nat): Rec {
    match k
    case 0 => r.(magic := 0)
    case 1 => r.(version := 0)
    case 2 => r.(boots := 0)
    case 3 => r.(kind := 0)
    case 4 => r.(arg0 := 0)
    case 5 => r.(arg1 := 0)
    case 6 => r.(lr := 0)
    case _ => if k < 23 then r.(task := r.task[k - 7 := 0]) else r
  }

  /** An active call: `boots` is r8_blackbox_init's local; `before` is the name field as this
      fault call found it when it started to record. */
  datatype Act = Init(pc: Pc, boots: Word) | Fault(call: Call, pc: Pc, before: Name)

  /** The record after a step, and the call with its next position. */
  datatype Moved = Moved(rec: Rec, act: Act)

  function StepInit(r: Rec, pc: Pc, boots: Word): Moved {
    match pc
    case Begin => Moved(r, Init(Clear(0), if r.magic == MAGIC then r.boots else 0))
    case Clear(k) => Moved(Zeroed(r, k), Init(if k < 22 then Clear(k + 1) else Version, boots))
    case Version => Moved(r.(version := VERSION), Init(Boots, boots))
    case Boots => Moved(r.(boots := Add32(boots, 1)), Init(Quiet, boots))
    case Quiet => Moved(r.(kind := 0), Init(Magic, boots))
    case Magic => Moved(r.(magic := MAGIC), Init(Halted, boots))
    case _ => Moved(r, Init(pc, boots))
  }

  function StepFault(r: Rec, call: Call, pc: Pc, before: Name): Moved {
    match pc
    case Begin => Moved(r, Fault(call, if r.magic != MAGIC then Clear(0) else Test, before))
    case Clear(k) => Moved(Zeroed(r, k), Fault(call, if k < 22 then Clear(k + 1) else Magic, before))
    case Magic => Moved(r.(magic := MAGIC), Fault(call, Version, before))
    case Version => Moved(r.(version := VERSION), Fault(call, Test, before))
    case Test => Moved(r, Fault(call, if r.kind != 0 then Halted else Arg0, r.task))
    case Arg0 => Moved(r.(arg0 := call.arg0), Fault(call, Arg1, before))
    case Arg1 => Moved(r.(arg1 := call.arg1), Fault(call, Lr, before))
    case Lr => Moved(r.(lr := call.lr), Fault(call, if call.name.Some? then Text(0) else Kind, before))
    case Text(i) =>
      if call.name.Some? && i < 15 && i < |call.name.value| then
        Moved(r.(task := r.task[i := call.name.value[i]]), Fault(call, Text(i + 1), before))
      else Moved(r.(task := if i < 16 then r.task[i := 0] else r.task), Fault(call, Kind, before))
    case Kind => Moved(r.(kind := call.kind), Fault(call, Halted, before))
    case _ => Moved(r, Fault(call, pc, before))
  }

  function StepAct(r: Rec, a: Act): Moved {
    match a
    case Init(pc, boots) => StepInit(r, pc, boots)
    case Fault(call, pc, before) => StepFault(r, call, pc, before)
  }

  // ---- names -------------------------------------------------------------------------

  function Shown(name: seq<Byte>): seq<Byte> {
    name[..if |name| < 15 then |name| else 15]
  }

  /** The name field after the copying loop, from a field that held `before`. */
  function Named(before: Name, name: Option<seq<Byte>>): Name {
    if name == None then before
    else
      var n := Shown(name.value);
      n + [0] + before[|n| + 1..]
  }

  /** One turn of the copying loop, and its end. */
  lemma CopyGoes(task: Name, name: seq<Byte>, i: nat, before: Name)
    requires i < 15 && i < |name| && task == name[..i] + before[i..]
    ensures i + 1 <= |Shown(name)| && task[i := name[i]] == name[..i + 1] + before[i + 1..]
  {
    assert name[..i + 1] == name[..i] + [name[i]];
    assert task[i := name[i]] == task[..i] + [name[i]] + task[i + 1..];
  }

  lemma CopyEnds(task: Name, name: seq<Byte>, i: nat, before: Name)
    requires i == |Shown(name)| && task == name[..i] + before[i..]
    ensures task[i := 0] == Named(before, Some(name))
  {
    assert task[i := 0] == task[..i] + [0] + task[i + 1..];
  }

  /** The copying loop has stored i characters. */
  ghost predicate Copying(r: Rec, name: seq<Byte>, i: nat, before: Name) {
    i <= |Shown(name)| && r.task == name[..i] + before[i..]
  }

  /** The string a reader extracts. */
  function Text0(b: seq<Byte>): seq<Byte> {
    if b == [] || b[0] == 0 then [] else [b[0]] + Text0(b[1..])
  }

  lemma {:induction false} TextIs(n: seq<Byte>, rest: seq<Byte>)
    requires 0 !in n
    ensures Text0(n + [0] + rest) == n
  {
    if n == [] {
    } else {
      TextIs(n[1..], rest);
      assert (n + [0] + rest)[1..] == n[1..] + [0] + rest;
    }
  }

  /** The reader sees the caller's name, cut to 15 characters, exactly when the call gave one or
      the field was blank when the call began; with NULL it sees what was there. */
  lemma NameShown(before: Name, call: Call)
    requires call.Valid() && before[15] == 0
    ensures Named(before, call.name)[15] == 0
    ensures call.name.Some? ==>
              var text := Text0(Named(before, call.name));
              text <= call.name.value && (|call.name.value| <= 15 ==> text == call.name.value)
              && (|call.name.value| > 15 ==> |text| == 15)
    ensures call.name.Some? ==> Text0(Named(before, call.name)) == Shown(call.name.value)
    ensures call.name == None ==> (Text0(Named(before, call.name)) == [] <==> before[0] == 0)
  {
    if call.name.Some? {
      var n := Shown(call.name.value);
      TextIs(n, before[|n| + 1..]);
    }
  }

  // ---- the functions as written, without preemption ----------------------------------

  /** What r8_blackbox_fault leaves when nothing preempts it. */
  function Recorded(r: Rec, call: Call): Rec {
    var ready := if r.magic == MAGIC then r else Rec(MAGIC, VERSION, 0, 0, 0, 0, 0, NO_NAME);
    if ready.kind != 0 then ready
    else ready.(kind := call.kind, arg0 := call.arg0, arg1 := call.arg1, lr := call.lr,
                task := Named(ready.task, call.name))
  }

  function Rank(pc: Pc): nat {
    match pc
    case Begin => 70
    case Clear(k) => if k < 23 then 60 - k else 37
    case Magic => 36
    case Version => 35
    case Test => 34
    case Arg0 => 33
    case Arg1 => 32
    case Lr => 31
    case Text(i) => if i < 16 then 30 - i else 14
    case Kind => 5
    case _ => 0
  }

  /** Steps of one fault call, uninterrupted, to the end. */
  function RunOut(r: Rec, call: Call, pc: Pc, before: Name): Rec
    decreases Rank(pc)
  {
    var n := StepFault(r, call, pc, before);
    if n.act.Fault? && Rank(n.act.pc) < Rank(pc) then RunOut(n.rec, call, n.act.pc, n.act.before) else n.rec
  }

  function Kept(task: Name, n: nat): Name
    requires n <= 16
  {
    task[..n] + NO_NAME[n..]
  }

  function WipedFrom(r: Rec, k: nat): Rec {
    Rec(if k <= 0 then 0 else r.magic, if k <= 1 then 0 else r.version, if k <= 2 then 0 else r.boots,
        if k <= 3 then 0 else r.kind, if k <= 4 then 0 else r.arg0, if k <= 5 then 0 else r.arg1,
        if k <= 6 then 0 else r.lr, Kept(r.task, if k < 7 then 0 else if k < 23 then k - 7 else 16))
  }

  lemma ZeroedWiped(r: Rec, k: nat)
    requires k < 23
    ensures WipedFrom(Zeroed(r, k), k + 1) == WipedFrom(r, k) && (k == 22 ==> Zeroed(r, k) == WipedFrom(r, k))
  {
    if k >= 7 {
      NameWiped(r.task, k - 7);
    }
  }

  lemma NameWiped(task: Name, k: nat)
    requires k < 16
    ensures Kept(task[k := 0], k + 1) == Kept(task, k)
    ensures k == 15 ==> task[k := 0] == Kept(task, k)
  {
    var x, y := Kept(task[k := 0], k + 1), Kept(task, k);
    assert forall j :: 0 <= j < 16 ==> x[j] == y[j];
  }

  lemma {:induction false} ClearRun(r: Rec, call: Call, k: nat, before: Name)
    requires k < 23
    ensures RunOut(r, call, Clear(k), before) == RunOut(WipedFrom(r, k), call, Magic, before)
    decreases 23 - k
  {
    ZeroedWiped(r, k);
    if k < 22 {
      ClearRun(Zeroed(r, k), call, k + 1, before);
    }
  }

  lemma {:induction false} TextRun(r: Rec, call: Call, i: nat, before: Name)
    requires call.name.Some? && Copying(r, call.name.value, i, before)
    ensures RunOut(r, call, Text(i), before) == RunOut(r.(task := Named(before, call.name)), call, Kind, before)
    decreases 16 - i
  {
    var name := call.name.value;
    if i < 15 && i < |name| {
      CopyGoes(r.task, name, i, before);
      TextRun(r.(task := r.task[i := name[i]]), call, i + 1, before);
    } else {
      CopyEnds(r.task, name, i, before);
    }
  }

  /** The steps above, run without preemption, do what the function is written to do. */
  lemma StepsAgree(r: Rec, call: Call, before: Name)
    ensures RunOut(r, call, Begin, before) == Recorded(r, call)
  {
    Starts(r, call, before);
    if r.magic == MAGIC {
      RecordRun(r, call, before);
    } else {
      ClearRun(r, call, 0, before);
      assert WipedFrom(r, 0).task == NO_NAME;
      Readies(WipedFrom(r, 0), call, before);
      RecordRun(WipedFrom(r, 0).(magic := MAGIC, version := VERSION), call, before);
    }
  }

  lemma Starts(r: Rec, call: Call, before: Name)
    ensures RunOut(r, call, Begin, before) == RunOut(r, call, if r.magic != MAGIC then Clear(0) else Test, before)
  {
  }

  lemma Readies(r: Rec, call: Call, before: Name)
    ensures RunOut(r, call, Magic, before) == RunOut(r.(magic := MAGIC, version := VERSION), call, Test, before)
  {
  }

  lemma RecordRun(r: Rec, call: Call, before: Name)
    requires r.magic == MAGIC
    ensures RunOut(r, call, Test, before) == Recorded(r, call)
  {
    Tests(r, call, before);
    if r.kind == 0 {
      var q := r.(arg0 := call.arg0, arg1 := call.arg1);
      ArgsRun(r, call);
      Links(q, call, r.task);
      if call.name.Some? {
        TextRun(q.(lr := call.lr), call, 0, r.task);
      }
      Closes(q.(lr := call.lr, task := Named(r.task, call.name)), call, r.task);
    }
  }

  lemma Tests(r: Rec, call: Call, before: Name)
    ensures RunOut(r, call, Test, before) == if r.kind == 0 then RunOut(r, call, Arg0, r.task) else r
  {
  }

  lemma ArgsRun(r: Rec, call: Call)
    ensures RunOut(r, call, Arg0, r.task) == RunOut(r.(arg0 := call.arg0, arg1 := call.arg1), call, Lr, r.task)
  {
  }

  lemma Links(r: Rec, call: Call, before: Name)
    ensures RunOut(r, call, Lr, before) ==
              RunOut(r.(lr := call.lr), call, if call.name.Some? then Text(0) else Kind, before)
  {
  }

  lemma Closes(r: Rec, call: Call, before: Name)
    ensures RunOut(r, call, Kind, before) == r.(kind := call.kind)
  {
  }

  // ---- initialisation ----------------------------------------------------------------

  function InitRank(pc: Pc): nat {
    match pc
    case Begin => 40
    case Clear(k) => if k < 23 then 30 - k else 0
    case Version => 5
    case Boots => 4
    case Quiet => 3
    case Magic => 2
    case _ => 0
  }

  /** Steps of one call of r8_blackbox_init, uninterrupted, to the end. */
  function RunInit(r: Rec, pc: Pc, boots: Word): Rec
    decreases InitRank(pc)
  {
    var n := StepInit(r, pc, boots);
    if n.act.Init? && InitRank(n.act.pc) < InitRank(pc) then RunInit(n.rec, n.act.pc, n.act.boots) else n.rec
  }

  /** The record after an initialisation that found r: empty, one boot later if r survived. */
  predicate Initialised(r: Rec, n: Rec) {
    && n == Rec(MAGIC, VERSION, n.boots, 0, 0, 0, 0, NO_NAME)
    && (r.magic == MAGIC ==> n.boots == Add32(r.boots, 1)) && (r.magic != MAGIC ==> n.boots == 1)
  }

  lemma {:induction false} ClearInit(r: Rec, k: nat, boots: Word)
    requires k < 23
    ensures RunInit(r, Clear(k), boots) == RunInit(WipedFrom(r, k), Version, boots)
    decreases 23 - k
  {
    ZeroedWiped(r, k);
    if k < 22 {
      ClearInit(Zeroed(r, k), k + 1, boots);
    }
  }

  /** The single stores of r8_blackbox_init, undisturbed, add up to an empty record with the boot count
      carried on, whatever the record held before. */
  lemma InitStepsAgree(r: Rec, boots: Word)
    ensures Initialised(r, RunInit(r, Begin, boots))
  {
    var count := if r.magic == MAGIC then r.boots else 0;
    assert RunInit(r, Begin, boots) == RunInit(r, Clear(0), count);
    ClearInit(r, 0, count);
    var w := WipedFrom(r, 0);
    assert w == Rec(0, 0, 0, 0, 0, 0, 0, NO_NAME);
    InitEnds(w, count);
  }

  lemma InitEnds(r: Rec, count: Word)
    ensures RunInit(r, Version, count) == r.(version := VERSION, boots := Add32(count, 1), kind := 0, magic := MAGIC)
  {
    var a := r.(version := VERSION);
    var b := a.(boots := Add32(count, 1));
    assert RunInit(r, Version, count) == RunInit(a, Boots, count);
    assert RunInit(a, Boots, count) == RunInit(b, Quiet, count);
    assert RunInit(b, Quiet, count) == RunInit(b.(kind := 0), Magic, count);
  }

  class BlackBox {
    var magic: Word
    var version: Word
    var boots: Word
    var kind: Word
    var arg0: Word
    var arg1: Word
    var lr: Word
    var task: Name
    var others: seq<Word>  // every other field of the record: counters, rings, instruments

    ghost function Record(): Rec
      reads this
    {
      Rec(magic, version, boots, kind, arg0, arg1, lr, task)
    }

    /** memset(R8_BB, 0, sizeof(r8_blackbox_t)). */
    method Clear()
      modifies this
      ensures Record() == Rec(0, 0, 0, 0, 0, 0, 0, NO_NAME)
      ensures others == seq(|old(others)|, _ => 0)
    {
      others := seq(|others|, _ => 0);
      magic, version, boots, kind, arg0, arg1, lr, task := 0, 0, 0, 0, 0, 0, 0, NO_NAME;
    }

    /** r8_blackbox_init up to the painting of the stacks. */
    method Init()
      modifies this
      ensures others == seq(|old(others)|, _ => 0)
      ensures Initialised(old(Record()), Record()) && Record() == RunInit(old(Record()), Begin, 0)
      ensures old(magic) == MAGIC ==> boots == Add32(old(boots), 1)
      ensures old(magic) != MAGIC ==> boots == 1
    {
      InitStepsAgree(Record(), 0);
      var count := 0;
      if magic == MAGIC {
        count := boots;
      }
      Clear();
      version := VERSION;
      boots := Add32(count, 1);
      kind := 0;
      magic := MAGIC;
    }

    /** r8_blackbox_fault. */
    method Fault(call: Call)
      modifies this
      ensures Record() == Recorded(old(Record()), call)
      // first fault wins, and otherwise this one is on record
      ensures old(magic) == MAGIC && old(kind) != 0 ==> Record() == old(Record())
      ensures old(magic) != MAGIC || old(kind) == 0 ==>
                && kind == call.kind && arg0 == call.arg0 && arg1 == call.arg1 && lr == call.lr && magic == MAGIC
                && task == Named(if old(magic) == MAGIC then old(task) else NO_NAME, call.name)
                && version == (if old(magic) == MAGIC then old(version) else VERSION)
                && boots == (if old(magic) == MAGIC then old(boots) else 0)
      ensures others == if old(magic) == MAGIC then old(others) else seq(|old(others)|, _ => 0)
    {
      if magic != MAGIC {
        Clear();
        magic := MAGIC;
        version := VERSION;
      }
      if kind != 0 {
        return;
      }
      arg0 := call.arg0;
      arg1 := call.arg1;
      lr := call.lr;
      if call.name.Some? {
        CopyName(call.name.value);
      }
      kind := call.kind;
    }

    method CopyName(name: seq<Byte>)
      modifies `task
      ensures task == Named(old(task), Some(name))
    {
      var i := 0;
      while i < 15 && i < |name|
        invariant i <= |Shown(name)| && task == name[..i] + old(task)[i..]
      {
        CopyGoes(task, name, i, old(task));
        task := task[i := name[i]];
        i := i + 1;
      }
      CopyEnds(task, name, i, old(task));
      task := task[i := 0];
    }
  }
}
