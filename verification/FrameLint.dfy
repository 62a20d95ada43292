/**
 scan() of tools/frame_lint.py: an abstract interpreter over one function's instructions. It tracks
 which registers hold a known constant and which hold the stack pointer plus a known offset, and credits
 the accesses made through the latter. It is proved sound against the machine it reads.
 */
module FrameLint {
  import opened Bytes
  import opened Options

  /** The reach of an access: REACH in frame_lint.py. */
  const REACH: int := 1020

  datatype Operand = Register(name: string) | Immediate(value: int)

  const A1: Operand := Register("a1")

  /** Mnemonics by what scan() asks of them: `Load` and `Store` together are MEM_OPS; stores, jumps,
      calls, loops, `Entry` and `Quiet` are NO_DEST; `Branch` starts with b; `Other` is any other. */
  datatype Op = Entry | Movi | Add | Addmi | Addi | Load | Store | Branch | Jump | Loop | Call | Quiet | Other

  datatype Insn = Insn(addr: nat, op: Op, ops: seq<Operand>, targets: seq<nat>)

  predicate IsMemOp(op: Op) { op.Load? || op.Store? }

  predicate NoDest(op: Op) {
    op.Store? || op.Jump? || op.Call? || op.Loop? || op.Quiet? || op.Entry? || op.Branch?
  }

  function Dest(i: Insn): Option<Operand> {
    if i.ops != [] && !NoDest(i.op) then Some(i.ops[0]) else None
  }

  /** Where imm() is called the operand is a number; scan() raises on anything else. */
  predicate Decoded(i: Insn) {
    && (i.op.Movi? && |i.ops| == 2 ==> i.ops[1].Immediate?)
    && (i.op.Entry? && |i.ops| == 2 ==> i.ops[1].Immediate?)
    && ((IsMemOp(i.op) || i.op.Addmi? || i.op.Addi?) && |i.ops| == 3 ==> i.ops[2].Immediate?)
  }

  type Program = p: seq<Insn> | forall k :: 0 <= k < |p| ==> Decoded(p[k]) witness []

  /** The addresses a branch, jump or loop names anywhere in the function. */
  function Targets(p: Program): set<nat> {
    set k, t | 0 <= k < |p| && (p[k].op.Branch? || p[k].op.Jump? || p[k].op.Loop?) && t in p[k].targets :: t
  }

  // ------------------------------------------------------------ the abstract domain

  datatype Facts = Facts(known: map<Operand, int>, far: map<Operand, int>)

  const NOTHING: Facts := Facts(map[], map[])

  /** The stack offset an instruction's access is credited with. */
  function Credit(f: Facts, i: Insn): Option<int>
    requires Decoded(i)
  {
    if IsMemOp(i.op) && |i.ops| == 3 && i.ops[1] in f.far then Some(f.far[i.ops[1]] + i.ops[2].value) else None
  }

  function NewConst(i: Insn): Option<int>
    requires Decoded(i)
  {
    if i.op.Movi? && |i.ops| == 2 then Some(i.ops[1].value) else None
  }

  /** The address an instruction computes: an offset, and the instructions it costs. */
  datatype Computed = Computed(offset: int, extra: nat)

  function Compute(f: Facts, i: Insn, limit: int): Option<Computed>
    requires Decoded(i)
  {
    if i.op.Add? && |i.ops| == 3 && A1 in i.ops[1..] then
      var other := if i.ops[1] == A1 then i.ops[2] else i.ops[1];
      if other in f.known && f.known[other] > limit then Some(Computed(f.known[other], 2)) else None
    else if i.op.Addmi? && |i.ops| == 3 && i.ops[1] == A1 then
      if i.ops[2].value > limit then Some(Computed(i.ops[2].value, 1)) else None
    else None
  }

  function NewFar(f: Facts, i: Insn, limit: int): Option<int>
    requires Decoded(i)
  {
    match Compute(f, i, limit)
    case Some(c) => Some(c.offset)
    case None => if i.op.Addi? && |i.ops| == 3 && i.ops[1] in f.far then Some(f.far[i.ops[1]] + i.ops[2].value)
      else None
  }

  function Put(m: map<Operand, int>, dest: Operand, value: Option<int>): map<Operand, int> {
    if value.Some? then m[dest := value.value] else m - {dest}
  }

  /** The facts after an instruction. */
  function Transfer(f: Facts, i: Insn, limit: int): Facts
    requires Decoded(i)
  {
    match Dest(i)
    case None => f
    case Some(dest) => Facts(Put(f.known, dest, NewConst(i)), Put(f.far, dest, NewFar(f, i, limit)))
  }

  /** The facts scan() holds as it comes to instruction k: everything is forgotten at a target. */
  function FactsAt(p: Program, limit: int, k: nat): Facts
    requires k <= |p|
  {
    if k < |p| && p[k].addr in Targets(p) then NOTHING
    else if k == 0 then NOTHING
    else Transfer(FactsAt(p, limit, k - 1), p[k - 1], limit)
  }

  function CreditAt(p: Program, limit: int, k: nat): Option<int>
    requires k < |p|
  {
    Credit(FactsAt(p, limit, k), p[k])
  }

  // ------------------------------------------------------------ the scan

  datatype Row = Row(frame: int, accesses: nat, computes: nat, extra: nat, worst: int)

  function Max(a: int, b: int): int { if a < b then b else a }

  /** The row of the first k instructions, one instruction at a time. */
  function RowOf(p: Program, limit: int, k: nat): Row
    requires k <= |p|
  {
    if k == 0 then Row(0, 0, 0, 0, 0) else CountIn(RowOf(p, limit, k - 1), FactsAt(p, limit, k - 1), p[k - 1], limit)
  }

  function CountIn(r: Row, f: Facts, i: Insn, limit: int): Row
    requires Decoded(i)
  {
    if i.op.Entry? then
      if |i.ops| == 2 && i.ops[0] == A1 then r.(frame := Max(r.frame, i.ops[1].value)) else r
    else
      var c, a := Compute(f, i, limit), Credit(f, i);
      Row(r.frame,
          r.accesses + (if a.Some? then 1 else 0),
          r.computes + (if c.Some? then 1 else 0),
          r.extra + (if c.Some? then c.value.extra else 0),
          if a.Some? then Max(r.worst, a.value) else r.worst)
  }

  lemma NextFacts(p: Program, limit: int, k: nat)
    requires k < |p|
    ensures p[k].addr in Targets(p) ==> FactsAt(p, limit, k) == NOTHING
    ensures RowOf(p, limit, k + 1) == CountIn(RowOf(p, limit, k), FactsAt(p, limit, k), p[k], limit)
    ensures (k + 1 < |p| && p[k + 1].addr in Targets(p)) ||
      FactsAt(p, limit, k + 1) == Transfer(FactsAt(p, limit, k), p[k], limit)
  {
    hide CountIn, Transfer, Targets;
  }

  lemma NoFacts(p: Program, limit: int)
    ensures RowOf(p, limit, 0) == Row(0, 0, 0, 0, 0) && FactsAt(p, limit, 0) == NOTHING
  {
  }

  /** Some branch, jump or loop names the address. */
  ghost predicate Listed(p: Program, addr: nat) {
    exists j :: 0 <= j < |p| && (p[j].op == Branch || p[j].op == Jump || p[j].op == Loop) && addr in p[j].targets
  }

  method CollectTargets(p: Program) returns (targets: set<nat>)
    ensures forall t :: t in targets <==> Listed(p, t)
    ensures targets == Targets(p)
  {
    targets := {};
    for k := 0 to |p|
      invariant targets == set j, t | 0 <= j < k && (p[j].op.Branch? || p[j].op.Jump? || p[j].op.Loop?) &&
        t in p[j].targets :: t
    {
      if p[k].op.Branch? || p[k].op.Jump? || p[k].op.Loop? {
        targets := targets + set t | t in p[k].targets;
      }
    }
  }

  method Scan(p: Program, limit: int) returns (row: Option<Row>)
    ensures var r := RowOf(p, limit, |p|); row == if r.frame > limit || r.accesses > 0 then Some(r) else None
  {
    hide Targets, RowOf, FactsAt;
    NoFacts(p, limit);
    var targets := CollectTargets(p);
    var frame, accesses: nat, computes: nat, extra: nat, worst := 0, 0, 0, 0, 0;
    var known, far: map<Operand, int> := map[], map[];
    for k := 0 to |p|
      invariant Row(frame, accesses, computes, extra, worst) == RowOf(p, limit, k)
      invariant (k < |p| && p[k].addr in targets) || Facts(known, far) == FactsAt(p, limit, k)
    {
      var i := p[k];
      NextFacts(p, limit, k);
      if i.addr in targets { known, far := map[], map[]; }
      if i.op.Entry? && |i.ops| == 2 && i.ops[0] == A1 {
        frame := Max(frame, i.ops[1].value);
        continue;
      }
      if IsMemOp(i.op) && |i.ops| == 3 && i.ops[1] in far {
        accesses := accesses + 1;
        worst := Max(worst, far[i.ops[1]] + i.ops[2].value);
      }
      var newConst, newFar := NewConst(i), None;
      if i.op.Add? && |i.ops| == 3 && A1 in i.ops[1..] {
        var other := if i.ops[1] == A1 then i.ops[2] else i.ops[1];
        if other in known && known[other] > limit {
          newFar := Some(known[other]);
          computes, extra := computes + 1, extra + 2;
        }
      } else if i.op.Addmi? && |i.ops| == 3 && i.ops[1] == A1 {
        if i.ops[2].value > limit {
          newFar := Some(i.ops[2].value);
          computes, extra := computes + 1, extra + 1;
        }
      } else if i.op.Addi? && |i.ops| == 3 && i.ops[1] in far {
        newFar := Some(far[i.ops[1]] + i.ops[2].value);
      }
      if i.ops != [] && !NoDest(i.op) {
        known, far := Put(known, i.ops[0], newConst), Put(far, i.ops[0], newFar);
      }
    }
    row := if frame > limit || accesses > 0 then Some(Row(frame, accesses, computes, extra, worst)) else None;
  }

  /** The instructions whose access is credited. */
  ghost function Credited(p: Program, limit: int, k: nat): set<nat>
    requires k <= |p|
  {
    set j: nat | j < k && CreditAt(p, limit, j).Some?
  }

  /** What one more instruction adds to the row, in terms of its credit. */
  lemma RowGrows(p: Program, limit: int, k: nat)
    requires k < |p|
    ensures var r, next, c := RowOf(p, limit, k), RowOf(p, limit, k + 1), CreditAt(p, limit, k);
      && next.accesses == r.accesses + (if c.Some? then 1 else 0)
      && next.worst == (if c.Some? then Max(r.worst, c.value) else r.worst)
  {
    hide FactsAt, Compute;
  }

  lemma OneMoreCredited(p: Program, limit: int, k: nat)
    requires k < |p|
    ensures |Credited(p, limit, k + 1)| == |Credited(p, limit, k)| + (if CreditAt(p, limit, k).Some? then 1 else 0)
  {
    hide CreditAt;
    var s, next := Credited(p, limit, k), Credited(p, limit, k + 1);
    if CreditAt(p, limit, k).Some? {
      assert next == s + {k};
      assert k !in s;
    } else {
      assert next == s;
    }
  }

  /** `accesses` counts the credited instructions. */
  lemma {:induction false} AccessesAreCounted(p: Program, limit: int, k: nat)
    requires k <= |p|
    ensures RowOf(p, limit, k).accesses == |Credited(p, limit, k)|
  {
    if k > 0 {
      hide RowOf, CreditAt, Credited;
      AccessesAreCounted(p, limit, k - 1);
      RowGrows(p, limit, k - 1);
      OneMoreCredited(p, limit, k - 1);
    } else {
      assert Credited(p, limit, 0) == {};
    }
  }

  /** `worst` is the deepest credited access. */
  lemma {:induction false} WorstIsDeepest(p: Program, limit: int, k: nat)
    requires k <= |p|
    ensures forall j :: 0 <= j < k && CreditAt(p, limit, j).Some? ==>
      CreditAt(p, limit, j).value <= RowOf(p, limit, k).worst
    ensures var worst := RowOf(p, limit, k).worst;
      worst == 0 || exists j :: 0 <= j < k && CreditAt(p, limit, j) == Some(worst)
  {
    if k == 0 {
    } else {
      hide RowOf, CreditAt;
      WorstIsDeepest(p, limit, k - 1);
      RowGrows(p, limit, k - 1);
    }
  }

  // ------------------------------------------------------------ the machine

  type Registers = Operand -> nat

  /** The register an instruction may write: the first operand of a move, an addition, a load or any other
      instruction that is not a store, a transfer or one of the quiet ones. */
  predicate Writes(i: Insn, x: Operand) {
    && i.ops != [] && x == i.ops[0]
    && (i.op == Movi || i.op == Add || i.op == Addmi || i.op == Addi || i.op == Load || i.op == Other)
  }

  /** What one instruction may do to the registers: it writes at most its first operand, 32 bits wide;
      loads and unknown instructions may write anything there. */
  ghost predicate Executes(i: Insn, regs: Registers, after: Registers)
    requires Decoded(i)
  {
    && (forall x :: !Writes(i, x) ==> after(x) == regs(x))
    && (i.op.Movi? && |i.ops| == 2 ==> after(i.ops[0]) == i.ops[1].value % WORD)
    && (i.op.Add? && |i.ops| == 3 ==> after(i.ops[0]) == (regs(i.ops[1]) + regs(i.ops[2])) % WORD)
    && ((i.op.Addmi? || i.op.Addi?) && |i.ops| == 3 ==> after(i.ops[0]) == (regs(i.ops[1]) + i.ops[2].value) % WORD)
  }

  /** No call, no zero-overhead loop, and nothing but the prologue moves the stack pointer. */
  ghost predicate Analysable(p: Program) {
    forall k :: 0 <= k < |p| ==> !p[k].op.Call? && !p[k].op.Loop? && !Writes(p[k], A1)
  }

  datatype Machine = Machine(pc: nat, regs: Registers)

  /** Control falls through, or a branch or jump lands on any listed address. */
  ghost predicate Next(p: Program, m: Machine, m': Machine) {
    && m.pc < |p| && m'.pc <= |p|
    && Executes(p[m.pc], m.regs, m'.regs)
    && (m'.pc == m.pc + 1
        || ((p[m.pc].op.Branch? || p[m.pc].op.Jump?) && m'.pc < |p| && Listed(p, p[m'.pc].addr)))
  }

  ghost predicate IsRun(p: Program, run: seq<Machine>) {
    && run != [] && run[0].pc == 0
    && forall k :: 0 <= k < |run| - 1 ==> Next(p, run[k], run[k + 1])
  }

  /** The facts are true of the registers. */
  ghost predicate Holds(f: Facts, regs: Registers) {
    && (forall x :: x in f.known ==> regs(x) == f.known[x] % WORD)
    && (forall x :: x in f.far ==> regs(x) == (regs(A1) + f.far[x]) % WORD)
  }

  lemma TransferIsSound(f: Facts, i: Insn, limit: int, regs: Registers, after: Registers)
    requires Decoded(i) && !Writes(i, A1) && Holds(f, regs) && Executes(i, regs, after)
    ensures Holds(Transfer(f, i, limit), after) && after(A1) == regs(A1)
  {
    if Dest(i).Some? {
      NewFarIsSound(f, i, limit, regs, after);
    }
  }

  lemma NewFarIsSound(f: Facts, i: Insn, limit: int, regs: Registers, after: Registers)
    requires Decoded(i) && Dest(i).Some? && Holds(f, regs) && Executes(i, regs, after)
    ensures NewFar(f, i, limit).Some? ==> after(i.ops[0]) == (regs(A1) + NewFar(f, i, limit).value) % WORD
  {
    if NewFar(f, i, limit).Some? {
      if i.op.Add? {
        var other := if i.ops[1] == A1 then i.ops[2] else i.ops[1];
        assert A1 in [i.ops[1], i.ops[2]];
        assert regs(i.ops[1]) + regs(i.ops[2]) == regs(A1) + regs(other);
        AddModulo(regs(A1), f.known[other]);
      } else if i.op.Addi? {
        AddModulo(i.ops[2].value, regs(A1) + f.far[i.ops[1]]);
      }
    }
  }

  lemma AddModulo(a: int, b: int)
    ensures (a + b % WORD) % WORD == (a + b) % WORD
  {
  }

  /** Every reachable state agrees with the facts, and the stack pointer never moves. */
  lemma {:induction false} ScanIsSound(p: Program, limit: int, run: seq<Machine>, k: nat)
    requires Analysable(p) && IsRun(p, run) && k < |run|
    ensures run[k].pc <= |p| && run[k].regs(A1) == run[0].regs(A1)
    ensures Holds(FactsAt(p, limit, run[k].pc), run[k].regs)
    decreases k
  {
    if k == 0 {
    } else {
      ScanIsSound(p, limit, run, k - 1);
      var m := run[k - 1];
      assert Next(p, m, run[k - 1 + 1]);
      TransferIsSound(FactsAt(p, limit, m.pc), p[m.pc], limit, m.regs, run[k].regs);
    }
  }

  /** A credited access is never invented: it is exactly at its offset from the stack pointer that
      stands after the prologue, and no deeper than `worst`. */
  lemma CreditsAreExact(p: Program, limit: int, run: seq<Machine>, k: nat)
    requires Analysable(p) && IsRun(p, run) && k < |run| && run[k].pc < |p|
    requires CreditAt(p, limit, run[k].pc).Some?
    ensures var i, offset := p[run[k].pc], CreditAt(p, limit, run[k].pc).value;
      && (run[k].regs(i.ops[1]) + i.ops[2].value) % WORD == (run[0].regs(A1) + offset) % WORD
      && offset <= RowOf(p, limit, |p|).worst
  {
    ScanIsSound(p, limit, run, k);
    WorstIsDeepest(p, limit, |p|);
  }

  // ------------------------------------------------------------ the facts, one instruction on

  /** What scan() knows after an instruction, and nothing besides: everything is forgotten at a listed address;
      otherwise an operand not written keeps its facts, a move makes a constant, and a register holds a far
      address if a constant past the limit was added to a1, on either side, or a1 stepped past it, or a far
      address stepped on. */
  lemma FactsAfter(p: Program, limit: int, k: nat, x: Operand, v: int)
    requires k < |p|
    ensures var now, next, i := FactsAt(p, limit, k), FactsAt(p, limit, k + 1), p[k];
      if k + 1 < |p| && Listed(p, p[k + 1].addr) then x !in next.known && x !in next.far
      else
        && (x in next.known && next.known[x] == v <==>
            if Writes(i, x) then i.op == Movi && |i.ops| == 2 && i.ops[1] == Immediate(v)
            else x in now.known && now.known[x] == v)
        && (x in next.far && next.far[x] == v <==>
            if !Writes(i, x) then x in now.far && now.far[x] == v
            else AddsConstant(now, i, limit, v) || StepsStack(i, limit, v) || StepsOn(now, i, v))
  {
    TargetsAreListed(p);
    hide Targets, FactsAt;
    NextFacts(p, limit, k);
    ForgetsAll(p, limit, k + 1);
  }

  lemma TargetsAreListed(p: Program)
    ensures forall t :: t in Targets(p) <==> Listed(p, t)
  {
    forall t ensures t in Targets(p) <==> Listed(p, t) {
      if Listed(p, t) {
        var j :| 0 <= j < |p| && (p[j].op == Branch || p[j].op == Jump || p[j].op == Loop) && t in p[j].targets;
        assert t in Targets(p);
      }
    }
  }

  lemma ForgetsAll(p: Program, limit: int, k: nat)
    requires k <= |p|
    ensures k < |p| && p[k].addr in Targets(p) ==> FactsAt(p, limit, k) == NOTHING
  {
  }

  /** add rd, a1, rs or add rd, rs, a1 with rs known to be past the limit. */
  predicate AddsConstant(f: Facts, i: Insn, limit: int, v: int) {
    && i.op == Add && |i.ops| == 3 && v > limit
    && (|| (i.ops[1] == A1 && i.ops[2] in f.known && f.known[i.ops[2]] == v)
        || (i.ops[1] != A1 && i.ops[2] == A1 && i.ops[1] in f.known && f.known[i.ops[1]] == v))
  }

  predicate StepsStack(i: Insn, limit: int, v: int) {
    i.op == Addmi && |i.ops| == 3 && i.ops[1] == A1 && i.ops[2] == Immediate(v) && v > limit
  }

  predicate StepsOn(f: Facts, i: Insn, v: int) {
    i.op == Addi && |i.ops| == 3 && i.ops[1] in f.far && i.ops[2] == Immediate(v - f.far[i.ops[1]])
  }

  /** What is credited: loads and stores through a far address, at that address plus their own offset. */
  lemma CreditIsAccess(p: Program, limit: int, k: nat, v: int)
    requires k < |p|
    ensures var f, i := FactsAt(p, limit, k), p[k];
      CreditAt(p, limit, k) == Some(v) <==>
      (i.op == Load || i.op == Store) && |i.ops| == 3 && i.ops[1] in f.far && i.ops[2] == Immediate(v - f.far[i.ops[1]])
  {
    hide FactsAt;
  }

  /** The additions of a constant to the stack pointer, and its steps, before instruction k. */
  ghost function Additions(p: Program, limit: int, k: nat): set<nat>
    requires k <= |p|
  {
    set j: nat | j < k && AddsAt(p, limit, j)
  }

  ghost predicate AddsAt(p: Program, limit: int, k: nat)
    requires k < |p|
  {
    exists v :: AddsConstant(FactsAt(p, limit, k), p[k], limit, v)
  }

  ghost function Strides(p: Program, limit: int, k: nat): set<nat>
    requires k <= |p|
  {
    set j: nat | j < k && StridesAt(p, limit, j)
  }

  ghost predicate StridesAt(p: Program, limit: int, k: nat)
    requires k < |p|
  {
    exists v :: StepsStack(p[k], limit, v)
  }

  /** `computes` counts the address computations, `extra` the instructions they cost beyond one near access: two
      for an addition with its constant, one for a step. */
  lemma {:induction false} ComputesAreCounted(p: Program, limit: int, k: nat)
    requires k <= |p|
    ensures var r := RowOf(p, limit, k);
      && r.computes == |Additions(p, limit, k)| + |Strides(p, limit, k)|
      && r.extra == 2 * |Additions(p, limit, k)| + |Strides(p, limit, k)|
  {
    if k == 0 {
      NoFacts(p, limit);
      assert Additions(p, limit, 0) == {} && Strides(p, limit, 0) == {};
    } else {
      ComputesAreCounted(p, limit, k - 1);
      OneMoreAddition(p, limit, k - 1);
      OneMoreStride(p, limit, k - 1);
      hide RowOf, Additions, Strides, FactsAt;
      NextFacts(p, limit, k - 1);
      ComputeIs(FactsAt(p, limit, k - 1), p[k - 1], limit);
    }
  }

  lemma ComputeIs(f: Facts, i: Insn, limit: int)
    requires Decoded(i)
    ensures var c := Compute(f, i, limit);
      && ((exists v :: AddsConstant(f, i, limit, v)) <==> c.Some? && c.value.extra == 2)
      && ((exists v :: StepsStack(i, limit, v)) <==> c.Some? && c.value.extra == 1)
      && (c.Some? ==> c.value.extra == 1 || c.value.extra == 2)
      && (i.op.Entry? ==> c.None?)
  {
    var c := Compute(f, i, limit);
    if c.Some? { assert AddsConstant(f, i, limit, c.value.offset) || StepsStack(i, limit, c.value.offset); }
  }

  lemma OneMoreAddition(p: Program, limit: int, k: nat)
    requires k < |p|
    ensures |Additions(p, limit, k + 1)| == |Additions(p, limit, k)| + (if AddsAt(p, limit, k) then 1 else 0)
  {
    hide AddsAt;
    var a := Additions(p, limit, k);
    if AddsAt(p, limit, k) {
      assert Additions(p, limit, k + 1) == a + {k};
      assert k !in a;
    } else {
      assert Additions(p, limit, k + 1) == a;
    }
  }

  lemma OneMoreStride(p: Program, limit: int, k: nat)
    requires k < |p|
    ensures |Strides(p, limit, k + 1)| == |Strides(p, limit, k)| + (if StridesAt(p, limit, k) then 1 else 0)
  {
    hide StridesAt;
    var s := Strides(p, limit, k);
    if StridesAt(p, limit, k) {
      assert Strides(p, limit, k + 1) == s + {k};
      assert k !in s;
    } else {
      assert Strides(p, limit, k + 1) == s;
    }
  }

  /** `frame` is the largest stack frame an entry sets up. */
  lemma {:induction false} FrameIsLargest(p: Program, limit: int, k: nat)
    requires k <= |p|
    ensures var frame := RowOf(p, limit, k).frame;
      && (forall j :: 0 <= j < k ==> EntryOf(p[j]).Some? ==> EntryOf(p[j]).value <= frame)
      && (frame == 0 || exists j :: 0 <= j < k && EntryOf(p[j]) == Some(frame))
  {
    hide FactsAt, Compute, Credit;
    if k == 0 {
    } else {
      FrameIsLargest(p, limit, k - 1);
      hide RowOf;
      NextFacts(p, limit, k - 1);
    }
  }

  function EntryOf(i: Insn): Option<int> {
    if i.op == Entry && |i.ops| == 2 && i.ops[0] == A1 && i.ops[1].Immediate? then Some(i.ops[1].value) else None
  }

  // ------------------------------------------------------------ how far is far

  /** The addi at k takes a computed address to the limit or below, and no target follows to forget it. */
  predicate StepsShort(p: Program, limit: int, k: nat)
    requires k < |p|
  {
    var i, far := p[k], FactsAt(p, limit, k).far;
    && i.op.Addi? && |i.ops| == 3 && i.ops[1] in far && far[i.ops[1]] + i.ops[2].value <= limit
    && !(k + 1 < |p| && p[k + 1].addr in Targets(p))
  }

  predicate AllFar(f: Facts, limit: int) { forall x :: x in f.far ==> f.far[x] > limit }

  predicate FarUpTo(p: Program, limit: int, n: nat)
    requires n <= |p|
  {
    forall k :: 0 <= k <= n ==> AllFar(FactsAt(p, limit, k), limit)
  }

  predicate NoneShort(p: Program, limit: int, n: nat)
    requires n <= |p|
  {
    forall k :: 0 <= k < n ==> !StepsShort(p, limit, k)
  }

  /** Every far fact up to instruction n exceeds the limit exactly when no addi before n steps short. */
  lemma {:induction false} FarFactsAreFar(p: Program, limit: int, n: nat)
    requires n <= |p|
    ensures FarUpTo(p, limit, n) <==> NoneShort(p, limit, n)
  {
    hide FactsAt, AllFar, StepsShort;
    StartsFar(p, limit);
    if n == 0 {
    } else {
      FarFactsAreFar(p, limit, n - 1);
      StepKeepsFar(p, limit, n - 1);
      assert n - 1 + 1 == n;
    }
  }

  lemma StartsFar(p: Program, limit: int)
    ensures AllFar(FactsAt(p, limit, 0), limit)
  {
  }

  lemma StepKeepsFar(p: Program, limit: int, k: nat)
    requires k < |p|
    ensures StepsShort(p, limit, k) ==> !AllFar(FactsAt(p, limit, k + 1), limit)
    ensures AllFar(FactsAt(p, limit, k), limit) && !StepsShort(p, limit, k) ==> AllFar(FactsAt(p, limit, k + 1), limit)
  {
    var before, after := FactsAt(p, limit, k), FactsAt(p, limit, k + 1);
    if StepsShort(p, limit, k) { assert p[k].ops[0] in after.far && after.far[p[k].ops[0]] <= limit; }
  }

  /** An access within an instruction's reach is credited only after an addi that stepped short, or by a
      negative offset of its own. */
  lemma NearCreditsStepBack(p: Program, limit: int, k: nat)
    requires k < |p| && CreditAt(p, limit, k).Some? && CreditAt(p, limit, k).value <= limit
    ensures p[k].ops[2].value < 0 || !NoneShort(p, limit, k)
  {
    hide NoneShort, FactsAt;
    FarFactsAreFar(p, limit, k);
    assert p[k].ops[2].value >= 0 ==> !AllFar(FactsAt(p, limit, k), limit);
  }

  /** Whatever the limit, the address computed past it and the step back within it, one such addi is enough for
      a credit within reach... */
  lemma ShortStepIsCredited(limit: int, far: int, step: int)
    requires far + step <= limit < far
    ensures exists p: Program ::
      |p| == 3 && Analysable(p) && StepsShort(p, limit, 1) && CreditAt(p, limit, 2) == Some(far + step)
  {
    var a8, a9 := Register("a8"), Register("a9");
    var p: Program := [Insn(0, Addmi, [a9, A1, Immediate(far)], []),
                       Insn(3, Addi, [a9, a9, Immediate(step)], []),
                       Insn(6, Load, [a8, a9, Immediate(0)], [])];
    AfterCompute(p, limit, far);
    var f1, f2 := FactsAt(p, limit, 1), FactsAt(p, limit, 2);
    hide FactsAt, Targets;
    assert f2 == Transfer(f1, p[1], limit) by { FactsFollow(p, limit, 1); }
    assert f2.far[a9] == far + step;
    assert StepsShort(p, limit, 1);
  }

  /** ... and so is one such offset of the access itself, as those of l32e and s32e are. */
  lemma NegativeOffsetIsCredited(limit: int, far: int, offset: int)
    requires far + offset <= limit < far
    ensures exists p: Program ::
      |p| == 2 && Analysable(p) && NoneShort(p, limit, 2) && CreditAt(p, limit, 1) == Some(far + offset)
  {
    var a8, a9 := Register("a8"), Register("a9");
    var p: Program := [Insn(0, Addmi, [a9, A1, Immediate(far)], []), Insn(3, Load, [a8, a9, Immediate(offset)], [])];
    AfterCompute(p, limit, far);
    hide FactsAt, Targets;
    assert !p[0].op.Addi? && !p[1].op.Addi?;
  }

  /** At the reach of 1020 bytes both with operands an assembler emits: addmi steps by 256, addi reaches -128 and
      l32e -64. */
  lemma BothAtTheReach()
    ensures exists p: Program ::
      |p| == 3 && Analysable(p) && StepsShort(p, REACH, 1) && CreditAt(p, REACH, 2) == Some(1008)
    ensures exists p: Program ::
      |p| == 2 && Analysable(p) && NoneShort(p, REACH, 2) && CreditAt(p, REACH, 1) == Some(1008)
  {
    hide Analysable, StepsShort, NoneShort, CreditAt;
    ShortStepIsCredited(REACH, 1024, -16);
    NegativeOffsetIsCredited(REACH, 1024, -16);
  }

  lemma FactsFollow(p: Program, limit: int, k: nat)
    requires k < |p| && Targets(p) == {}
    ensures FactsAt(p, limit, k + 1) == Transfer(FactsAt(p, limit, k), p[k], limit)
  {
  }

  lemma AfterCompute(p: Program, limit: int, far: int)
    requires |p| > 1 && limit < far && p[0] == Insn(0, Addmi, [Register("a9"), A1, Immediate(far)], [])
    requires forall k :: 0 <= k < |p| ==> p[k].targets == []
    ensures Targets(p) == {}
    ensures Register("a9") in FactsAt(p, limit, 1).far && FactsAt(p, limit, 1).far[Register("a9")] == far
  {
    assert FactsAt(p, limit, 0) == NOTHING;
    assert NewFar(NOTHING, p[0], limit) == Some(far);
  }
}
