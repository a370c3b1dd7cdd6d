/** The lock-free distinct-key tracker: an exact bitmap for small spaces, HyperLogLog registers
    for large ones. First the atomic steps as a machine of any number of threads, then the
    methods themselves under interference from the other threads. */
module Tracker {
  import opened Arith
  import opened Bits
  import opened Selectors

  const BITMAP_MAX: nat := 0x800_0000
  const HLL_BITS: nat := 14
  const REGISTERS: nat := 16384
  const MAX_RHO: nat := 51

  // ---- where an index lands ----

  predicate BitAt(bits: seq<nat>, idx: nat) {
    idx / 64 < |bits| && Bit(bits[idx / 64], idx % 64)
  }

  function Register(idx: Word): nat { Shr(Mix64(idx), 64 - HLL_BITS) }

  function LeadingZeros64(v: nat): int { 64 - BitLen(v) }

  /** Rank of the first set bit below the register bits, 1-based, capped by the sentinel. */
  function Rho(idx: Word): int {
    LeadingZeros64(Or(Shl(Mix64(idx), HLL_BITS) % WORDS, Pow2(HLL_BITS - 1))) + 1
  }

  lemma RegisterRange(idx: Word)
    ensures Register(idx) < REGISTERS
  {
    Pow2Concrete();
    ShrRange(Mix64(idx), 14, 50);
  }

  /** What the register file sees of an index: the top 14 bits of its hash choose the register,
      and the rank is the place of the highest set bit among the other 50, 51 if there is none. */
  lemma RankOfTail(idx: Word)
    ensures var tail := Mix64(idx) % Pow2(50);
            && Register(idx) * Pow2(50) + tail == Mix64(idx)
            && 1 <= Rho(idx) <= MAX_RHO
            && (Rho(idx) == 51 <==> tail == 0)
            && (tail > 0 ==> Pow2(50 - Rho(idx)) <= tail < Pow2(51 - Rho(idx)))
  {
    RankOfWord(Mix64(idx));
  }

  lemma RhoRange(idx: Word)
    ensures 1 <= Rho(idx) <= MAX_RHO
  {
    RankOfTail(idx);
  }

  lemma RankOfWord(h: Word)
    ensures var tail := h % Pow2(50);
            var rank := LeadingZeros64(Or(Shl(h, HLL_BITS) % WORDS, Pow2(HLL_BITS - 1))) + 1;
            && Shr(h, 64 - HLL_BITS) * Pow2(50) + tail == h
            && 1 <= rank <= 51
            && (rank == 51 <==> tail == 0)
            && (tail > 0 ==> Pow2(50 - rank) <= tail < Pow2(51 - rank))
  {
    SplitAt(h, 50);
    TailShifted(h, 50, HLL_BITS);
    Pow2Concrete();
    RankOfShifted(h % Pow2(50));
  }

  /** A right shift leaves the quotient by a power of two. */
  lemma SplitAt(v: nat, k: nat)
    ensures Shr(v, k) * Pow2(k) + v % Pow2(k) == v
  {
    ShrSandwich(v, k);
    ShlIsMul(Shr(v, k), k);
    MulComm(Shr(v, k), Pow2(k));
    DivUnique(v, Pow2(k), Shr(v, k), And(v, Pow2(k) - 1));
  }

  /** A left shift that loses the high bits shifts the low ones. */
  lemma {:induction false} TailShifted(v: nat, m: nat, k: nat)
    ensures Shl(v, k) % Pow2(m + k) == Shl(v % Pow2(m), k)
  {
    if k > 0 {
      TailShifted(v, m, k - 1);
      DoubleMod(Shl(v, k - 1), Pow2(m + k - 1));
    }
  }

  lemma DoubleMod(x: nat, d: nat)
    requires d > 0
    ensures 2 * x % (2 * d) == 2 * (x % d)
  {
    DivFloor(x, d);
    MulTwice(d, x / d);
    DivUnique(2 * x, 2 * d, x / d, 2 * (x % d));
  }

  lemma MulTwice(a: int, b: int)
    ensures 2 * a * b == 2 * (a * b)
  {
  }

  /** The rank computed from the tail alone. */
  lemma RankOfShifted(tail: nat)
    requires tail < Pow2(50)
    ensures var rank := LeadingZeros64(Or(Shl(tail, HLL_BITS), Pow2(HLL_BITS - 1))) + 1;
            && 1 <= rank <= 51
            && (rank == 51 <==> tail == 0)
            && (tail > 0 ==> Pow2(50 - rank) <= tail < Pow2(51 - rank))
  {
    BitLenOr(Shl(tail, HLL_BITS), Pow2(13));
    BitLenUnique(Pow2(13), 14);
    BitLenBounds(tail);
    if tail == 0 {
      ShlZero(HLL_BITS);
    } else {
      BitLenShl(tail, HLL_BITS);
      if BitLen(tail) > 50 {
        Pow2Mono(50, BitLen(tail) - 1);
      }
    }
  }

  lemma {:induction false} BitLenShl(v: nat, k: nat)
    requires v > 0
    ensures Shl(v, k) > 0 && BitLen(Shl(v, k)) == BitLen(v) + k
  {
    if k > 0 {
      BitLenShl(v, k - 1);
    }
  }

  /** How indices are placed in the register file; the machine works for any placement. */
  datatype Placement = Placement(register: Word -> nat, rho: Word -> int)

  ghost predicate Proper(p: Placement) {
    forall x: Word :: p.register(x) < REGISTERS && 1 <= p.rho(x) <= MAX_RHO
  }

  function Hll(): Placement { Placement((x: Word) => Register(x), (x: Word) => Rho(x)) }

  lemma HllProper()
    ensures Proper(Hll())
  {
    forall x: Word ensures Hll().register(x) < REGISTERS && 1 <= Hll().rho(x) <= MAX_RHO {
      RegisterRange(x);
      RhoRange(x);
    }
  }

  // ---- the step machine ----

  datatype Pc =
    | Idle
    | Probing
    | Setting
    | Loading(retries: nat)
    | Swapping(cur: nat, retries: nat)

  /** A thread and the indices it still has to observe; outside Idle, todo[0] is in progress. */
  datatype Thread = Thread(pc: Pc, todo: seq<Word>)

  datatype Memory = Memory(draws: nat, bits: seq<nat>, regs: seq<nat>)

  datatype State = State(mem: Memory, threads: seq<Thread>)

  predicate InBitmapMode(m: Memory) { |m.bits| > 0 }

  function Finish(t: Thread): Thread
    requires t.todo != []
  {
    Thread(Idle, t.todo[1..])
  }

  predicate Active(t: Thread) { t.pc != Idle || t.todo != [] }

  predicate MemoryFits(m: Memory) { InBitmapMode(m) || |m.regs| == REGISTERS }

  predicate ThreadFits(m: Memory, t: Thread) {
    && (t.pc.Idle? || t.todo != [])
    && (t.pc.Probing? || t.pc.Setting? ==> InBitmapMode(m))
    && (t.pc.Loading? || t.pc.Swapping? ==> !InBitmapMode(m))
    && (InBitmapMode(m) ==> forall k :: 0 <= k < |t.todo| ==> t.todo[k] / 64 < |m.bits|)
  }

  /** One atomic step of Observe. */
  ghost function StepThread(p: Placement, m: Memory, t: Thread): (Memory, Thread)
    requires Proper(p) && MemoryFits(m) && ThreadFits(m, t)
  {
    if !Active(t) then (m, t) else
    var idx := t.todo[0];
    match t.pc
    case Idle => (m.(draws := m.draws + 1), t.(pc := if InBitmapMode(m) then Probing else Loading(0)))
    case Probing =>
      if And(m.bits[idx / 64], Pow2(idx % 64)) == 0 then (m, t.(pc := Setting)) else (m, Finish(t))
    case Setting =>
      (m.(bits := m.bits[idx / 64 := Or(m.bits[idx / 64], Pow2(idx % 64))]), Finish(t))
    case Loading(retries) =>
      var cur := m.regs[p.register(idx)];
      if p.rho(idx) <= cur then (m, Finish(t)) else (m, t.(pc := Swapping(cur, retries)))
    case Swapping(cur, retries) =>
      if m.regs[p.register(idx)] == cur then (m.(regs := m.regs[p.register(idx) := p.rho(idx)]), Finish(t))
      else (m, t.(pc := Loading(retries + 1)))
  }

  ghost predicate Fits(s: State) {
    MemoryFits(s.mem) && forall i :: 0 <= i < |s.threads| ==> ThreadFits(s.mem, s.threads[i])
  }

  ghost function Step(p: Placement, s: State, who: nat): State
    requires Proper(p) && Fits(s)
  {
    if who >= |s.threads| then s else
    var (m, t) := StepThread(p, s.mem, s.threads[who]);
    State(m, s.threads[who := t])
  }

  // ---- the invariant ----

  ghost predicate Covered(p: Placement, m: Memory, x: Word)
    requires Proper(p) && MemoryFits(m)
  {
    if InBitmapMode(m) then BitAt(m.bits, x) else p.rho(x) <= m.regs[p.register(x)]
  }

  /** Each failed CAS saw the register strictly rise: the retries so far are a lower bound on
      what was last loaded, and that on what the register holds now. */
  ghost predicate RegInv(p: Placement, m: Memory, idx: Word, seen: nat, retries: nat)
    requires Proper(p) && MemoryFits(m) && !InBitmapMode(m)
  {
    retries <= seen <= m.regs[p.register(idx)] && retries <= p.rho(idx)
  }

  ghost predicate ThreadInv(p: Placement, m: Memory, t: Thread, all: set<Word>)
    requires Proper(p) && MemoryFits(m)
  {
    && ThreadFits(m, t)
    && (forall k :: 0 <= k < |t.todo| ==> t.todo[k] in all)
    && (t.pc.Loading? ==> RegInv(p, m, t.todo[0], t.pc.retries, t.pc.retries))
    && (t.pc.Swapping? ==> t.pc.cur < p.rho(t.todo[0]) && RegInv(p, m, t.todo[0], t.pc.cur, t.pc.retries))
  }

  /** A register's value is the rank of some given index. */
  ghost predicate Explained(p: Placement, all: set<Word>, j: nat, v: nat) {
    exists x: Word :: x in all && p.register(x) == j && p.rho(x) == v
  }

  /** Memory shows nothing that was not given. */
  ghost predicate Sound(p: Placement, m: Memory, all: set<Word>) {
    && (forall x: Word :: BitAt(m.bits, x) ==> x in all)
    && (forall j :: 0 <= j < |m.regs| ==> m.regs[j] == 0 || Explained(p, all, j, m.regs[j]))
  }

  ghost predicate Outstanding(s: State, x: Word) { exists i :: 0 <= i < |s.threads| && x in s.threads[i].todo }

  ghost predicate Inv(p: Placement, s: State, all: set<Word>) {
    && Proper(p) && MemoryFits(s.mem)
    && (forall i :: 0 <= i < |s.threads| ==> ThreadInv(p, s.mem, s.threads[i], all))
    && Sound(p, s.mem, all)
    && (forall x: Word :: x in all ==> Covered(p, s.mem, x) || Outstanding(s, x))
  }

  // ---- one step keeps it ----

  /** Shared memory only ever gains: bits are set, registers rise. */
  ghost predicate Grown(m: Memory, m': Memory) {
    && |m'.bits| == |m.bits| && |m'.regs| == |m.regs|
    && (forall x: nat :: BitAt(m.bits, x) ==> BitAt(m'.bits, x))
    && (forall j :: 0 <= j < |m.regs| ==> m.regs[j] <= m'.regs[j])
  }

  lemma SetBit(bits: seq<nat>, idx: nat, x: nat)
    requires idx / 64 < |bits|
    ensures BitAt(bits[idx / 64 := Or(bits[idx / 64], Pow2(idx % 64))], x) <==> BitAt(bits, x) || x == idx
  {
    if x / 64 == idx / 64 {
      BitOr(bits[idx / 64], Pow2(idx % 64), x % 64);
      BitPow2(idx % 64, x % 64);
    }
  }

  /** What one step does, seen locally: memory grows soundly, and an index leaves the list only
      when memory covers it. */
  ghost predicate LocalStep(p: Placement, m: Memory, t: Thread, all: set<Word>, m': Memory, t': Thread)
    requires Proper(p)
  {
    && MemoryFits(m') && Grown(m, m') && Sound(p, m', all) && ThreadInv(p, m', t', all)
    && (t'.todo == t.todo || (t.todo != [] && t'.todo == t.todo[1..] && Covered(p, m', t.todo[0])))
  }

  lemma BitStep(p: Placement, m: Memory, t: Thread, all: set<Word>)
    requires Proper(p) && MemoryFits(m) && ThreadInv(p, m, t, all) && Sound(p, m, all)
    requires t.pc.Probing? || t.pc.Setting?
    ensures var (m', t') := StepThread(p, m, t); LocalStep(p, m, t, all, m', t')
  {
    var idx := t.todo[0];
    AndSingle(m.bits[idx / 64], idx % 64);
    forall x: nat ensures BitAt(m.bits[idx / 64 := Or(m.bits[idx / 64], Pow2(idx % 64))], x) <==> BitAt(m.bits, x) || x == idx {
      SetBit(m.bits, idx, x);
    }
  }

  lemma RegStep(p: Placement, m: Memory, t: Thread, all: set<Word>)
    requires Proper(p) && MemoryFits(m) && ThreadInv(p, m, t, all) && Sound(p, m, all)
    requires t.pc.Loading? || t.pc.Swapping?
    ensures var (m', t') := StepThread(p, m, t); LocalStep(p, m, t, all, m', t')
  {
    var idx := t.todo[0];
    assert Explained(p, all, p.register(idx), p.rho(idx));
  }

  lemma IdleStep(p: Placement, m: Memory, t: Thread, all: set<Word>)
    requires Proper(p) && MemoryFits(m) && ThreadInv(p, m, t, all) && Sound(p, m, all)
    requires t.pc.Idle?
    ensures var (m', t') := StepThread(p, m, t); LocalStep(p, m, t, all, m', t')
  {
  }

  /** Other threads' loaded values stay good as memory grows. */
  lemma OthersKeep(p: Placement, m: Memory, m': Memory, t: Thread, all: set<Word>)
    requires Proper(p) && MemoryFits(m) && MemoryFits(m') && Grown(m, m') && ThreadInv(p, m, t, all)
    ensures ThreadInv(p, m', t, all)
  {
  }

  lemma StepInv(p: Placement, s: State, who: nat, all: set<Word>)
    requires Inv(p, s, all)
    ensures Inv(p, Step(p, s, who), all)
  {
    if who < |s.threads| {
      var t := s.threads[who];
      match t.pc {
        case Idle => IdleStep(p, s.mem, t, all);
        case Probing => BitStep(p, s.mem, t, all);
        case Setting => BitStep(p, s.mem, t, all);
        case Loading(_) => RegStep(p, s.mem, t, all);
        case Swapping(_, _) => RegStep(p, s.mem, t, all);
      }
      var (m', t') := StepThread(p, s.mem, t);
      var after := s.threads[who := t'];
      forall i | 0 <= i < |after| ensures ThreadInv(p, m', after[i], all) {
        OthersKeep(p, s.mem, m', s.threads[i], all);
      }
      CoverageKept(p, s, who, all, m', t');
    }
  }

  lemma CoverageKept(p: Placement, s: State, who: nat, all: set<Word>, m': Memory, t': Thread)
    requires Inv(p, s, all) && who < |s.threads| && LocalStep(p, s.mem, s.threads[who], all, m', t')
    ensures forall x: Word :: x in all ==> Covered(p, m', x) || Outstanding(State(m', s.threads[who := t']), x)
  {
    var s' := State(m', s.threads[who := t']);
    forall x: Word | x in all && !Covered(p, m', x) ensures Outstanding(s', x) {
      assert Outstanding(s, x);
      var i :| 0 <= i < |s.threads| && x in s.threads[i].todo;
      if i == who {
        var todo := s.threads[who].todo;
        assert todo == [todo[0]] + todo[1..];
        assert x in t'.todo;
        assert x in s'.threads[who].todo;
      } else {
        assert x in s'.threads[i].todo;
      }
    }
  }

  // ---- runs ----

  function Elements(todos: seq<seq<Word>>): set<Word> {
    set i, k | 0 <= i < |todos| && 0 <= k < |todos[i]| :: todos[i][k]
  }

  /** NewTracker, with one list of indices to observe per thread. */
  function NewMemory(space: nat): Memory
    requires space > 0
  {
    if space <= BITMAP_MAX then Memory(0, seq((space + 63) / 64, i => 0), [])
    else Memory(0, [], seq(REGISTERS, i => 0))
  }

  function Init(space: nat, todos: seq<seq<Word>>): State
    requires space > 0
  {
    State(NewMemory(space), seq(|todos|, i requires 0 <= i < |todos| => Thread(Idle, todos[i])))
  }

  ghost function Run(p: Placement, s: State, schedule: seq<nat>, all: set<Word>): State
    requires Inv(p, s, all)
    decreases |schedule|
  {
    if schedule == [] then s else
    StepInv(p, s, schedule[0], all);
    Run(p, Step(p, s, schedule[0]), schedule[1..], all)
  }

  predicate InSpace(space: nat, todos: seq<seq<Word>>) {
    forall i :: 0 <= i < |todos| ==> forall k :: 0 <= k < |todos[i]| ==> todos[i][k] < space
  }

  lemma InitInv(p: Placement, space: nat, todos: seq<seq<Word>>)
    requires Proper(p) && space > 0 && InSpace(space, todos)
    ensures Inv(p, Init(space, todos), Elements(todos))
  {
    var s := Init(space, todos);
    forall x: Word ensures !BitAt(s.mem.bits, x) {
      NoBits(x % 64);
    }
    forall i | 0 <= i < |s.threads| ensures ThreadInv(p, s.mem, s.threads[i], Elements(todos)) {
      assert s.threads[i].todo == todos[i];
    }
    forall x | x in Elements(todos) ensures Outstanding(s, x) {
      var i, k :| 0 <= i < |todos| && 0 <= k < |todos[i]| && todos[i][k] == x;
      assert x in s.threads[i].todo;
    }
  }

  lemma {:induction false} RunInv(p: Placement, s: State, schedule: seq<nat>, all: set<Word>)
    requires Inv(p, s, all)
    ensures Inv(p, Run(p, s, schedule, all), all)
    ensures |Run(p, s, schedule, all).mem.bits| == |s.mem.bits| && |Run(p, s, schedule, all).mem.regs| == |s.mem.regs|
    ensures |Run(p, s, schedule, all).threads| == |s.threads|
    decreases |schedule|
  {
    if schedule != [] {
      StepInv(p, s, schedule[0], all);
      RunInv(p, Step(p, s, schedule[0]), schedule[1..], all);
    }
  }

  predicate Quiet(s: State) { forall i :: 0 <= i < |s.threads| ==> !Active(s.threads[i]) }

  /** The register file that holds, for every register, the largest rank of an index in all. */
  ghost predicate IsMaxRho(p: Placement, all: set<Word>, j: nat, v: nat) {
    && (forall x: Word :: x in all && p.register(x) == j ==> p.rho(x) <= v)
    && (v == 0 || Explained(p, all, j, v))
  }

  /** A quiet memory holds the given indices and nothing else. */
  lemma QuietMemory(p: Placement, s: State, all: set<Word>)
    requires Inv(p, s, all) && Quiet(s)
    ensures InBitmapMode(s.mem) ==> forall x: Word :: BitAt(s.mem.bits, x) <==> x in all
    ensures !InBitmapMode(s.mem) ==> forall j :: 0 <= j < REGISTERS ==> IsMaxRho(p, all, j, s.mem.regs[j])
  {
    forall x: Word | x in all ensures Covered(p, s.mem, x) {
      assert !Outstanding(s, x);
    }
  }

  lemma MaxRhoUnique(p: Placement, all: set<Word>, j: nat, v: nat, v': nat)
    requires Proper(p) && IsMaxRho(p, all, j, v) && IsMaxRho(p, all, j, v')
    ensures v == v'
  {
  }

  /** What a new tracker reaches when one thread for each list observes it, under this schedule. */
  ghost function Reached(p: Placement, space: nat, todos: seq<seq<Word>>, schedule: seq<nat>): (s: State)
    requires Proper(p) && space > 0 && InSpace(space, todos)
    ensures |s.threads| == |todos|
  {
    InitInv(p, space, todos);
    RunInv(p, Init(space, todos), schedule, Elements(todos));
    Run(p, Init(space, todos), schedule, Elements(todos))
  }

  lemma ReachedInv(p: Placement, space: nat, todos: seq<seq<Word>>, schedule: seq<nat>)
    requires Proper(p) && space > 0 && InSpace(space, todos)
    ensures Inv(p, Reached(p, space, todos, schedule), Elements(todos))
    ensures InBitmapMode(Reached(p, space, todos, schedule).mem) <==> space <= BITMAP_MAX
  {
    InitInv(p, space, todos);
    RunInv(p, Init(space, todos), schedule, Elements(todos));
  }

  /** The same with the registers and ranks the code computes. */
  ghost function Observed(space: nat, todos: seq<seq<Word>>, schedule: seq<nat>): (s: State)
    requires space > 0 && InSpace(space, todos)
    ensures |s.threads| == |todos|
  {
    HllProper();
    Reached(Hll(), space, todos, schedule)
  }

  lemma ObservedInv(space: nat, todos: seq<seq<Word>>, schedule: seq<nat>)
    requires space > 0 && InSpace(space, todos)
    ensures Inv(Hll(), Observed(space, todos, schedule), Elements(todos))
    ensures InBitmapMode(Observed(space, todos, schedule).mem) <==> space <= BITMAP_MAX
  {
    HllProper();
    ReachedInv(Hll(), space, todos, schedule);
  }

  /** When every thread is done, whatever their number, their lists and the interleaving: the bitmap
      is the set observed, and each register holds the largest rank of an index that falls to it. */
  lemma FinalMemory(space: nat, todos: seq<seq<Word>>, schedule: seq<nat>)
    requires space > 0 && InSpace(space, todos) && Quiet(Observed(space, todos, schedule))
    ensures var mem, all := Observed(space, todos, schedule).mem, Elements(todos);
            && (space <= BITMAP_MAX ==> forall x: Word :: BitAt(mem.bits, x) <==> x in all)
            && (space > BITMAP_MAX ==> |mem.regs| == REGISTERS)
            && (space > BITMAP_MAX ==> forall j :: 0 <= j < REGISTERS ==> IsMaxRho(Hll(), all, j, mem.regs[j]))
  {
    ObservedInv(space, todos, schedule);
    QuietMemory(Hll(), Observed(space, todos, schedule), Elements(todos));
  }

  /** So the memory depends on the set alone: two finished drives that observed the same indices,
      split and interleaved in any two ways, agree bit for bit and register for register. */
  lemma FinalMemoryAgrees(space: nat, todos: seq<seq<Word>>, schedule: seq<nat>,
                          todos': seq<seq<Word>>, schedule': seq<nat>)
    requires space > 0 && InSpace(space, todos) && InSpace(space, todos') && Elements(todos) == Elements(todos')
    requires Quiet(Observed(space, todos, schedule)) && Quiet(Observed(space, todos', schedule'))
    ensures var m, m' := Observed(space, todos, schedule).mem, Observed(space, todos', schedule').mem;
            && (space <= BITMAP_MAX ==> forall x: Word :: BitAt(m.bits, x) <==> BitAt(m'.bits, x))
            && (space > BITMAP_MAX ==> m.regs == m'.regs)
  {
    FinalMemory(space, todos, schedule);
    FinalMemory(space, todos', schedule');
    HllProper();
    if space > BITMAP_MAX {
      var regs, regs' := Observed(space, todos, schedule).mem.regs, Observed(space, todos', schedule').mem.regs;
      forall j | 0 <= j < REGISTERS ensures regs[j] == regs'[j] {
        MaxRhoUnique(Hll(), Elements(todos), j, regs[j], regs'[j]);
      }
    }
  }

  // ---- counting ----

  function Sum(ts: seq<Thread>, f: Thread -> nat): nat {
    if ts == [] then 0 else Sum(ts[..|ts| - 1], f) + f(ts[|ts| - 1])
  }

  lemma {:induction false} SumUpdate(ts: seq<Thread>, who: nat, t: Thread, f: Thread -> nat)
    requires who < |ts|
    ensures Sum(ts[who := t], f) == Sum(ts, f) - f(ts[who]) + f(t)
  {
    var n := |ts| - 1;
    if who == n {
      assert ts[who := t][..n] == ts[..n];
    } else {
      assert ts[who := t][..n] == ts[..n][who := t];
      SumUpdate(ts[..n], who, t, f);
    }
  }

  function Undrawn(): Thread -> nat { (t: Thread) => if t.pc == Idle || t.todo == [] then |t.todo| else |t.todo| - 1 }

  function InFlight(): Thread -> nat { (t: Thread) => if t.pc == Idle then 0 else 1 }

  function OnesCount(bits: seq<nat>): nat {
    if bits == [] then 0 else OnesCount(bits[..|bits| - 1]) + PopCount(bits[|bits| - 1])
  }

  function Members(bits: seq<nat>): set<nat> {
    set x: nat | x < 64 * |bits| && BitAt(bits, x)
  }

  /** Draws are never lost, the bitmap's count is the number of indices it holds, and set bits
      never outnumber finished draws. */
  ghost predicate CountInv(s: State, total: nat) {
    && s.mem.draws + Sum(s.threads, Undrawn()) == total
    && OnesCount(s.mem.bits) == |Members(s.mem.bits)|
    && OnesCount(s.mem.bits) + Sum(s.threads, InFlight()) <= s.mem.draws
  }

  lemma {:induction false} PopCountOr(v: nat, k: nat)
    ensures PopCount(Or(v, Pow2(k))) == PopCount(v) + (if Bit(v, k) then 0 else 1)
    decreases k
  {
    OrHalves(v, Pow2(k));
    if k == 0 {
      OrNone(v / 2);
    } else {
      PopCountOr(v / 2, k - 1);
      OrZero(v, Pow2(k));
      if v == 0 {
        NoBits(k);
      }
    }
  }

  lemma {:induction false} OrNone(v: nat)
    ensures Or(v, 0) == v
  {
    if v > 0 {
      OrNone(v / 2);
    }
  }

  lemma {:induction false} OnesCountUpdate(bits: seq<nat>, w: nat, v: nat)
    requires w < |bits|
    ensures OnesCount(bits[w := v]) == OnesCount(bits) - PopCount(bits[w]) + PopCount(v)
  {
    var n := |bits| - 1;
    if w == n {
      assert bits[w := v][..n] == bits[..n];
    } else {
      assert bits[w := v][..n] == bits[..n][w := v];
      OnesCountUpdate(bits[..n], w, v);
    }
  }

  lemma SetBitMembers(bits: seq<nat>, idx: nat)
    requires idx / 64 < |bits|
    ensures Members(bits[idx / 64 := Or(bits[idx / 64], Pow2(idx % 64))]) == Members(bits) + {idx}
    ensures idx in Members(bits) <==> Bit(bits[idx / 64], idx % 64)
  {
    var bits' := bits[idx / 64 := Or(bits[idx / 64], Pow2(idx % 64))];
    forall x: nat ensures x in Members(bits') <==> x in Members(bits) + {idx} {
      SetBit(bits, idx, x);
    }
  }

  lemma AddSize<T>(m: set<T>, x: T)
    ensures |m + {x}| == |m| + (if x in m then 0 else 1)
  {
    if x in m {
      assert m + {x} == m;
    }
  }

  lemma SetBitCounts(bits: seq<nat>, idx: nat)
    requires idx / 64 < |bits| && OnesCount(bits) == |Members(bits)|
    ensures var bits' := bits[idx / 64 := Or(bits[idx / 64], Pow2(idx % 64))];
            && Members(bits') == Members(bits) + {idx}
            && OnesCount(bits') == |Members(bits')| <= OnesCount(bits) + 1
  {
    var w := idx / 64;
    SetBitMembers(bits, idx);
    AddSize(Members(bits), idx);
    OnesCountUpdate(bits, w, Or(bits[w], Pow2(idx % 64)));
    PopCountOr(bits[w], idx % 64);
  }

  /** What one thread's step does to the counts: a draw, a bit, or nothing. */
  lemma ThreadCounts(p: Placement, m: Memory, t: Thread)
    requires Proper(p) && MemoryFits(m) && ThreadFits(m, t) && OnesCount(m.bits) == |Members(m.bits)|
    ensures var (m', t') := StepThread(p, m, t);
            && m'.draws + Undrawn()(t') == m.draws + Undrawn()(t)
            && OnesCount(m'.bits) == |Members(m'.bits)|
            && OnesCount(m'.bits) - OnesCount(m.bits) <= (m'.draws - m.draws) + InFlight()(t) - InFlight()(t')
  {
    if t.pc.Setting? {
      SetBitCounts(m.bits, t.todo[0]);
    }
  }

  lemma StepCounts(p: Placement, s: State, who: nat, all: set<Word>, total: nat)
    requires Inv(p, s, all) && CountInv(s, total)
    ensures CountInv(Step(p, s, who), total)
  {
    if who < |s.threads| {
      var t := s.threads[who];
      var t' := StepThread(p, s.mem, t).1;
      ThreadCounts(p, s.mem, t);
      SumUpdate(s.threads, who, t', Undrawn());
      SumUpdate(s.threads, who, t', InFlight());
    }
  }

  lemma {:induction false} RunCounts(p: Placement, s: State, schedule: seq<nat>, all: set<Word>, total: nat)
    requires Inv(p, s, all) && CountInv(s, total)
    ensures CountInv(Run(p, s, schedule, all), total)
    decreases |schedule|
  {
    if schedule != [] {
      StepInv(p, s, schedule[0], all);
      StepCounts(p, s, schedule[0], all, total);
      RunCounts(p, Step(p, s, schedule[0]), schedule[1..], all, total);
    }
  }

  function TotalLength(todos: seq<seq<Word>>): nat {
    if todos == [] then 0 else TotalLength(todos[..|todos| - 1]) + |todos[|todos| - 1]|
  }

  lemma {:induction false} OnesOfZeros(bits: seq<nat>)
    requires forall i :: 0 <= i < |bits| ==> bits[i] == 0
    ensures OnesCount(bits) == 0
  {
    if bits != [] {
      OnesOfZeros(bits[..|bits| - 1]);
    }
  }

  lemma {:induction false} IdleSums(ts: seq<Thread>, todos: seq<seq<Word>>)
    requires |ts| == |todos| && forall i :: 0 <= i < |ts| ==> ts[i] == Thread(Idle, todos[i])
    ensures Sum(ts, Undrawn()) == TotalLength(todos) && Sum(ts, InFlight()) == 0
  {
    if ts != [] {
      var n := |ts| - 1;
      assert ts[n] == Thread(Idle, todos[n]);
      IdleSums(ts[..n], todos[..n]);
    }
  }

  lemma InitCounts(space: nat, todos: seq<seq<Word>>)
    requires space > 0
    ensures CountInv(Init(space, todos), TotalLength(todos))
  {
    var s := Init(space, todos);
    IdleSums(s.threads, todos);
    OnesOfZeros(s.mem.bits);
    forall x: nat ensures !BitAt(s.mem.bits, x) {
      NoBits(x % 64);
    }
    assert Members(s.mem.bits) == {};
  }

  /** In every reachable state the bitmap never shows more indices than draws were made; once
      the threads are done, draws counts every Observe and the bitmap estimate is the exact
      number of distinct indices. */
  lemma TrackerCounts(p: Placement, space: nat, todos: seq<seq<Word>>, schedule: seq<nat>)
    requires Proper(p) && space > 0 && InSpace(space, todos)
    ensures var s := Reached(p, space, todos, schedule);
            && OnesCount(s.mem.bits) <= s.mem.draws <= TotalLength(todos)
            && (Quiet(s) ==> s.mem.draws == TotalLength(todos))
            && (Quiet(s) && space <= BITMAP_MAX ==> OnesCount(s.mem.bits) == |Elements(todos)|)
  {
    var all, s := Elements(todos), Reached(p, space, todos, schedule);
    InitInv(p, space, todos);
    ReachedInv(p, space, todos, schedule);
    InitCounts(space, todos);
    RunCounts(p, Init(space, todos), schedule, all, TotalLength(todos));
    if Quiet(s) {
      QuietSums(s.threads);
      if space <= BITMAP_MAX {
        QuietMemory(p, s, all);
        RunInv(p, Init(space, todos), schedule, all);
        MembersAre(s.mem.bits, all);
      }
    }
  }

  lemma {:induction false} QuietSums(ts: seq<Thread>)
    requires forall i :: 0 <= i < |ts| ==> !Active(ts[i])
    ensures Sum(ts, Undrawn()) == 0
  {
    if ts != [] {
      assert !Active(ts[|ts| - 1]);
      QuietSums(ts[..|ts| - 1]);
    }
  }

  lemma MembersAre(bits: seq<nat>, all: set<Word>)
    requires forall x: Word :: BitAt(bits, x) <==> x in all
    requires 64 * |bits| <= WORDS
    ensures |Members(bits)| == |all|
  {
    var a: set<int>, b: set<int> := Members(bits), all;
    forall x | x in a ensures x in b {
      var w: Word := x;
      assert w in all;
    }
    forall x | x in b ensures x in a {
      var w: Word := x;
      assert BitAt(bits, w);
    }
    assert a == b;
  }

  // ---- wait freedom ----

  const OBSERVE_STEPS: nat := 105

  /** An upper bound on the steps a thread still has to take, whatever the others do. */
  function Work(t: Thread): int {
    match t.pc
    case Idle => OBSERVE_STEPS * |t.todo|
    case Probing => OBSERVE_STEPS * (|t.todo| - 1) + 2
    case Setting => OBSERVE_STEPS * (|t.todo| - 1) + 1
    case Loading(retries) => OBSERVE_STEPS * (|t.todo| - 1) + 2 * (MAX_RHO + 1 - retries)
    case Swapping(_, retries) => OBSERVE_STEPS * (|t.todo| - 1) + 2 * (MAX_RHO + 1 - retries) - 1
  }

  lemma WorkDecreases(p: Placement, m: Memory, t: Thread, all: set<Word>)
    requires Proper(p) && MemoryFits(m) && ThreadInv(p, m, t, all)
    ensures 0 <= Work(t)
    ensures Active(t) ==> Work(StepThread(p, m, t).1) < Work(t)
  {
  }

  /** How many steps a thread takes in a schedule before it is done. */
  ghost function StepsTaken(p: Placement, s: State, schedule: seq<nat>, all: set<Word>, who: nat): nat
    requires Inv(p, s, all)
    decreases |schedule|
  {
    if schedule == [] then 0 else
    StepInv(p, s, schedule[0], all);
    (if schedule[0] == who && who < |s.threads| && Active(s.threads[who]) then 1 else 0)
    + StepsTaken(p, Step(p, s, schedule[0]), schedule[1..], all, who)
  }

  /** Steps of a thread are paid for out of its work, and nobody else's steps add to it. */
  lemma {:induction false} WorkSpent(p: Placement, s: State, schedule: seq<nat>, all: set<Word>, who: nat)
    requires Inv(p, s, all) && who < |s.threads|
    ensures var t := Run(p, s, schedule, all);
            && |t.threads| == |s.threads|
            && StepsTaken(p, s, schedule, all, who) + Work(t.threads[who]) <= Work(s.threads[who])
    decreases |schedule|
  {
    RunInv(p, s, schedule, all);
    WorkDecreases(p, s.mem, s.threads[who], all);
    if schedule != [] {
      StepInv(p, s, schedule[0], all);
      WorkSpent(p, Step(p, s, schedule[0]), schedule[1..], all, who);
    }
  }

  lemma WorkBounds(p: Placement, m: Memory, t: Thread, all: set<Word>)
    requires Proper(p) && MemoryFits(m) && ThreadInv(p, m, t, all)
    ensures Work(t) <= OBSERVE_STEPS * |t.todo|
    ensures t.todo != [] ==> OBSERVE_STEPS * (|t.todo| - 1) < Work(t)
  {
  }

  /** Wait-free: from any reachable state and under any interleaving, by the time a thread has
      taken 105 steps of its own the Observe it was in is over: one draw, and a load and a swap
      for each of at most 52 tries. */
  lemma WaitFree(space: nat, todos: seq<seq<Word>>, before: seq<nat>, more: seq<nat>, who: nat)
    requires space > 0 && InSpace(space, todos) && who < |todos|
    ensures Inv(Hll(), Observed(space, todos, before), Elements(todos))
    ensures var s, all := Observed(space, todos, before), Elements(todos);
            var t := Run(Hll(), s, more, all);
            && |t.threads| == |todos|
            && (s.threads[who].todo != [] && StepsTaken(Hll(), s, more, all, who) >= OBSERVE_STEPS ==>
                  |t.threads[who].todo| < |s.threads[who].todo|)
  {
    var p, s, all := Hll(), Observed(space, todos, before), Elements(todos);
    ObservedInv(space, todos, before);
    WorkSpent(p, s, more, all, who);
    RunInv(p, s, more, all);
    var t := Run(p, s, more, all);
    WorkBounds(p, s.mem, s.threads[who], all);
    WorkBounds(p, t.mem, t.threads[who], all);
  }

  /** No swap is retried more often than the index's rank, at any point of any run. */
  lemma RetriesBounded(space: nat, todos: seq<seq<Word>>, schedule: seq<nat>, i: nat)
    requires space > 0 && InSpace(space, todos) && i < |todos|
    ensures var t := Observed(space, todos, schedule).threads[i];
            && (t.pc.Loading? ==> t.todo != [] && t.pc.retries <= Rho(t.todo[0]) <= MAX_RHO)
            && (t.pc.Swapping? ==> t.todo != [] && t.pc.retries < Rho(t.todo[0]) <= MAX_RHO)
  {
    var s := Observed(space, todos, schedule);
    ObservedInv(space, todos, schedule);
    assert ThreadInv(Hll(), s.mem, s.threads[i], Elements(todos));
  }

  // ---- the methods, with the other threads running in between ----

  class SharedTracker {
    const space: nat
    var draws: nat
    const bits: array<nat>
    const regs: array<nat>

    ghost predicate Valid()
      reads this
    {
      && space > 0 && bits != regs
      && (bits.Length > 0 <==> space <= BITMAP_MAX)
      && (bits.Length > 0 ==> bits.Length == (space + 63) / 64)
      && regs.Length == (if bits.Length == 0 then REGISTERS else 0)
    }

    ghost function Mem(): Memory
      reads this, bits, regs
    {
      Memory(draws, bits[..], regs[..])
    }

    /** NewTracker. */
    constructor (space: int)
      ensures Valid() && this.space == Max(space, 1) && fresh(bits) && fresh(regs)
      ensures Mem() == NewMemory(Max(space, 1))
    {
      var n := if space < 1 then 1 else space;
      this.space := n;
      draws := 0;
      if n <= BITMAP_MAX {
        bits := new nat[(n + 63) / 64](i => 0);
        regs := new nat[0];
      } else {
        bits := new nat[0];
        regs := new nat[REGISTERS](i => 0);
      }
    }

    /** Any number of steps of other threads: draws, bits and registers only grow. */
    method Interfere()
      requires Valid()
      modifies this`draws, bits, regs
      ensures Valid() && old(draws) <= draws && Grown(old(Mem()), Mem())
    {
      var n: nat := *;
      while n > 0
        invariant Valid() && old(draws) <= draws && Grown(old(Mem()), Mem())
      {
        n := n - 1;
        var k: nat, v: nat := *, *;
        if k / 64 < bits.Length {
          RaiseBit(k);
        } else if k < regs.Length && v > regs[k] {
          regs[k] := v;
        }
        draws := draws + 1;
      }
    }

    /** The atomic Or. */
    method RaiseBit(idx: nat)
      requires Valid() && idx / 64 < bits.Length
      modifies bits
      ensures forall x: nat :: BitAt(bits[..], x) <==> old(BitAt(bits[..], x)) || x == idx
      ensures Grown(old(Mem()), Mem())
    {
      ghost var before := bits[..];
      bits[idx / 64] := Or(bits[idx / 64], Pow2(idx % 64));
      assert bits[..] == before[idx / 64 := Or(before[idx / 64], Pow2(idx % 64))];
      forall x: nat ensures BitAt(bits[..], x) <==> BitAt(before, x) || x == idx {
        SetBit(before, idx, x);
      }
    }

    /** Observe. Whatever runs in between, it only adds to memory and leaves idx covered; the
        compare-and-swap loop needs at most rho failed attempts. */
    method Observe(idx: Word)
      requires Valid() && idx < space
      modifies this`draws, bits, regs
      ensures Valid() && draws > old(draws) && Grown(old(Mem()), Mem())
      ensures bits.Length > 0 ==> BitAt(bits[..], idx)
      ensures bits.Length == 0 ==> Register(idx) < regs.Length && Rho(idx) <= regs[Register(idx)]
    {
      RegisterRange(idx);
      RhoRange(idx);
      draws := draws + 1;
      Interfere();
      if bits.Length > 0 {
        var w, b := idx / 64, Pow2(idx % 64);
        AndSingle(bits[w], idx % 64);
        if And(bits[w], b) == 0 {
          Interfere();
          RaiseBit(idx);
        }
        return;
      }
      var j, rho := Register(idx), Rho(idx);
      ghost var retries: nat := 0;
      while true
        invariant Valid() && draws > old(draws) && Grown(old(Mem()), Mem())
        invariant retries <= regs[j] && retries <= rho
        decreases rho - retries
      {
        var cur := regs[j];
        if rho <= cur {
          return;
        }
        Interfere();
        if regs[j] == cur {
          regs[j] := rho;
          return;
        }
        retries := retries + 1;
        Interfere();
      }
    }

    /** Estimate, in bitmap mode. */
    method EstimateExact() returns (n: nat)
      requires Valid() && bits.Length > 0
      ensures n == OnesCount(bits[..])
    {
      n := 0;
      var i := 0;
      while i < bits.Length
        invariant 0 <= i <= bits.Length && n == OnesCount(bits[..i])
      {
        assert bits[..i + 1][..i] == bits[..i];
        n := n + PopCount(bits[i]);
        i := i + 1;
      }
      assert bits[..i] == bits[..];
    }

    /** Reset, between the warmup and the measured drive: as good as new. */
    method Reset()
      requires Valid()
      modifies this`draws, bits, regs
      ensures Valid() && Mem() == NewMemory(space)
    {
      draws := 0;
      var i := 0;
      while i < bits.Length
        invariant 0 <= i <= bits.Length && draws == 0
        invariant forall k :: 0 <= k < i ==> bits[k] == 0
      {
        bits[i] := 0;
        i := i + 1;
      }
      i := 0;
      while i < regs.Length
        invariant 0 <= i <= regs.Length && draws == 0
        invariant forall k :: 0 <= k < i ==> regs[k] == 0
        invariant forall k :: 0 <= k < bits.Length ==> bits[k] == 0
      {
        regs[i] := 0;
        i := i + 1;
      }
    }
  }
}
