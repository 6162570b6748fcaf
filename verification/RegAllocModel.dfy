/** The two languages of the trace assembler (luajit/lj_asm.c): traces in SSA form, and the
    machine code emitted for them, with what each computes.  Then the property that links the
    emitted code to the allocator state while a trace is assembled backwards. */
module RegAllocModel {

  // ---------------------------------------------------------------- registers (MIPS)

  type Reg = nat
  type Ref = nat
  type Val = int

  const NREGS: nat := 64
  const NSLOTS: nat := 256
  const RID_ZERO: Reg := 0
  const RID_FPRET: Reg := 32
  const REGARG_FIRSTFPR: Reg := 44
  const RID_TMP: Reg := 31
  const SPS_FIRST: nat := 4
  const SPS_TMP: nat := 0

  /** All registers except ZERO, TMP, SP, SYS1, SYS2 and JGL. */
  const GPR: set<Reg> := set r: Reg | 1 <= r <= 28 && r != 26 && r != 27
  /** The even floating-point registers. */
  const FPR: set<Reg> := set r: Reg | 32 <= r < 64 && r % 2 == 0
  const ALL: set<Reg> := GPR + FPR
  /** Registers that the rounding helper overwrites. */
  const ROUND_CLOBBERS: set<Reg> := {1, 12, 32, 34, 36, 44}

  // ---------------------------------------------------------------- traces

  /** An instruction of a trace.  References below `first` are constants; an operand always
      refers to an earlier entry. */
  datatype Ins =
    | KInt(k: int)
    | KNum(n: Val)
    | Base
    | SLoad(slot: int, isnum: bool)
    | Add(op1: Ref, op2: Ref)
    | Sub(op1: Ref, op2: Ref)
    | FArith(fop: nat, op1: Ref, op2: Ref)
    | Round(op1: Ref)
    | XStore(op1: Ref, op2: Ref)  // store op2 at address op1

  /** A loop: the entries from `start` on are repeated; each time the left operand of a PHI takes
      on the value that its right operand had at the end of the last round. */
  datatype Phi = Phi(left: Ref, right: Ref)
  datatype Loop = Loop(start: Ref, phis: seq<Phi>)

  datatype Trace = Trace(ir: seq<Ins>, first: nat, loop: Option<Loop>)

  predicate IsConst(i: Ins) { i.KInt? || i.KNum? || i.Base? }

  predicate IsNum(i: Ins) {
    match i
    case KNum(_) => true
    case SLoad(_, n) => n
    case FArith(_, _, _) => true
    case Round(_) => true
    case _ => false
  }

  /** The register file an instruction's value lives in. */
  function ClassOf(i: Ins): set<Reg> { if IsNum(i) then FPR else GPR }

  predicate Operand(t: Trace, ref: Ref, i: Ref, num: bool) {
    ref < i && i <= |t.ir| && !t.ir[ref].XStore? && !t.ir[ref].Base? && IsNum(t.ir[ref]) == num
  }

  predicate EntryOk(t: Trace, i: Ref)
    requires i < |t.ir|
  {
    match t.ir[i]
    case Add(a, b) => Operand(t, a, i, false) && Operand(t, b, i, false)
    case Sub(a, b) => Operand(t, a, i, false) && Operand(t, b, i, false)
    case FArith(_, a, b) => Operand(t, a, i, true) && Operand(t, b, i, true)
    case Round(a) => Operand(t, a, i, true)
    case XStore(a, b) => Operand(t, a, i, false) && b < i && Operand(t, b, i, IsNum(t.ir[b]))
    case _ => true
  }

  predicate PhiOk(t: Trace, phi: Phi, start: Ref) {
    && t.first <= phi.left < start <= |t.ir| && !t.ir[phi.left].XStore?
    && Operand(t, phi.right, |t.ir|, IsNum(t.ir[phi.left]))
  }

  predicate LoopOk(t: Trace, loop: Loop) {
    && t.first <= loop.start <= |t.ir|
    && (forall k :: 0 <= k < |loop.phis| ==> PhiOk(t, loop.phis[k], loop.start))
    && (forall j, k :: 0 <= j < k < |loop.phis| ==> loop.phis[j].left != loop.phis[k].left)
  }

  predicate WellFormed(t: Trace) {
    && 0 < t.first <= |t.ir|
    && t.ir[t.first - 1] == Base
    && (forall r :: 0 <= r < |t.ir| ==> (IsConst(t.ir[r]) <==> r < t.first))
    && (forall i :: 0 <= i < |t.ir| ==> EntryOk(t, i))
    && (t.loop.Some? ==> LoopOk(t, t.loop.value))
  }

  /** What the code cannot know: the base pointer, the stack it points to, floating-point
      arithmetic, and the values that a call leaves behind in the registers it clobbers.  In a
      later round of a loop, `given` has the values of the references before the loop. */
  datatype World = World(base: Val, stack: (Val, int) -> Val, arith: (nat, Val, Val) -> Val,
                         round: Val -> Val, junk: (nat, Reg) -> Val, given: map<Ref, Val>)

  function Wrap(v: int): Val { v % 0x1_0000_0000 }

  /** The SSA value of reference r. */
  function Value(t: Trace, w: World, r: Ref): Val
    requires WellFormed(t) && r < |t.ir|
    decreases r
  {
    assert EntryOk(t, r);
    if r >= t.first && r in w.given then w.given[r] else
    match t.ir[r]
    case KInt(k) => Wrap(k)
    case KNum(n) => n
    case Base => w.base
    case SLoad(slot, _) => w.stack(w.base, slot)
    case Add(a, b) => Wrap(Value(t, w, a) + Value(t, w, b))
    case Sub(a, b) => Wrap(Value(t, w, a) - Value(t, w, b))
    case FArith(o, a, b) => w.arith(o, Value(t, w, a), Value(t, w, b))
    case Round(a) => w.round(Value(t, w, a))
    case XStore(_, _) => 0
  }

  /** The stores that the entries below n perform, in order: (address, value). */
  function Stores(t: Trace, w: World, n: nat): seq<(Val, Val)>
    requires WellFormed(t) && n <= |t.ir|
  {
    if n == 0 then []
    else
      assert EntryOk(t, n - 1);
      if t.ir[n - 1].XStore? && n - 1 >= t.first then
        Stores(t, w, n - 1) + [(Value(t, w, t.ir[n - 1].op1), Value(t, w, t.ir[n - 1].op2))]
      else Stores(t, w, n - 1)
  }

  // ---------------------------------------------------------------- machine code

  datatype MIns =
    | LoadK(d: Reg, v: Val)                       // immediate
    | LoadBase(d: Reg)
    | SpLoad(d: Reg, slot: nat, wide: bool)       // reload from a spill slot
    | SpStore(s: Reg, slot: nat, wide: bool)      // save to a spill slot
    | Mov(d: Reg, s: Reg)
    | LoadStack(d: Reg, b: Reg, ofs: int)
    | AddU(d: Reg, l: Reg, r: Reg)
    | AddIU(d: Reg, l: Reg, k: int)
    | SubU(d: Reg, l: Reg, r: Reg)
    | Fp(fop: nat, d: Reg, l: Reg, r: Reg)
    | CallRound
    | StoreX(s: Reg, b: Reg)

  datatype MState = MState(regs: seq<Val>, slots: seq<Val>, out: seq<(Val, Val)>)

  predicate Sane(m: MState) { |m.regs| == NREGS && |m.slots| == NSLOTS }

  /** Register r as an operand; the zero register is hard-wired. */
  function Get(m: MState, r: Reg): Val
    requires Sane(m)
  {
    if r == RID_ZERO || r >= NREGS then 0 else m.regs[r]
  }

  function Set(m: MState, r: Reg, v: Val): (m': MState)
    requires Sane(m)
    ensures Sane(m')
  {
    if r < NREGS then m.(regs := m.regs[r := v]) else m
  }

  function SetSlot(m: MState, s: nat, v: Val): (m': MState)
    requires Sane(m)
    ensures Sane(m')
  {
    if s < NSLOTS then m.(slots := m.slots[s := v]) else m
  }

  /** One instruction; `at` tells apart the junk that different calls leave behind.  A wide slot
      is a pair of words; a reload of a pair that was torn apart yields junk. */
  function Step(ins: MIns, w: World, at: nat, m: MState): (m': MState)
    requires Sane(m)
    ensures Sane(m')
  {
    match ins
    case LoadK(d, v) => Set(m, d, v)
    case LoadBase(d) => Set(m, d, w.base)
    case SpLoad(d, slot, wide) =>
      if slot < NSLOTS && (wide ==> slot + 1 < NSLOTS && m.slots[slot + 1] == m.slots[slot]) then
        Set(m, d, m.slots[slot])
      else Set(m, d, w.junk(at, d))
    case SpStore(s, slot, wide) =>
      var m1 := SetSlot(m, slot, Get(m, s));
      if wide then SetSlot(m1, slot + 1, Get(m, s)) else m1
    case Mov(d, s) => Set(m, d, Get(m, s))
    case LoadStack(d, b, ofs) => Set(m, d, w.stack(Get(m, b), ofs))
    case AddU(d, l, r) => Set(m, d, Wrap(Get(m, l) + Get(m, r)))
    case AddIU(d, l, k) => Set(m, d, Wrap(Get(m, l) + k))
    case SubU(d, l, r) => Set(m, d, Wrap(Get(m, l) - Get(m, r)))
    case Fp(o, d, l, r) => Set(m, d, w.arith(o, Get(m, l), Get(m, r)))
    case CallRound =>
      var arg := Get(m, REGARG_FIRSTFPR);
      MState(seq(NREGS, r requires 0 <= r < NREGS =>
               if r == RID_FPRET then w.round(arg)
               else if r in ROUND_CLOBBERS then w.junk(at, r) else m.regs[r]),
             m.slots, m.out)
    case StoreX(s, b) => m.(out := m.out + [(Get(m, b), Get(m, s))])
  }

  function Run(code: seq<MIns>, w: World, m: MState): (m': MState)
    requires Sane(m)
    ensures Sane(m')
  {
    if code == [] then m else Run(code[1..], w, Step(code[0], w, |code|, m))
  }

  // ---------------------------------------------------------------- the allocator's view

  datatype RState = NoReg | Hint(hint: Reg) | InReg(reg: Reg)
  datatype Option<T> = None | Some(value: T)
  datatype Pending = Pending(reg: Reg, ref: Ref)

  /** What the code has to leave behind, beside its stores: references in registers and slots. */
  datatype Ending = Ending(regs: map<Reg, Ref>, slots: map<Ref, nat>)

  /** The allocator state that matters at a program point: free registers, the owner of each
      allocated register, register and spill slot of each reference, and the slot counters.
      `cur` is the number of trace entries that have been executed at this point. */
  datatype View = View(free: set<Reg>, cost: seq<Ref>, rs: seq<RState>, sp: seq<nat>, even: nat, odd: nat, cur: nat,
                       ending: Ending)

  /** The words of the slot of reference r do not overlap those of another reference. */
  predicate SlotsApart(t: Trace, sp: seq<nat>)
    requires |sp| == |t.ir|
  {
    forall a, b :: 0 <= a < b < |sp| && sp[a] != 0 && sp[b] != 0 ==>
      sp[a] != sp[b]
      && (IsNum(t.ir[a]) ==> sp[b] != sp[a] + 1)
      && (IsNum(t.ir[b]) ==> sp[a] != sp[b] + 1)
  }

  predicate SlotOk(t: Trace, sp: seq<nat>, even: nat, odd: nat, r: Ref)
    requires r < |t.ir| == |sp|
  {
    sp[r] != 0 ==>
      && r >= t.first && !t.ir[r].XStore?
      && SPS_FIRST <= sp[r] < even && sp[r] != odd
      && (IsNum(t.ir[r]) ==> sp[r] % 2 == 0 && sp[r] + 1 != odd)
  }

  ghost function Spilled(sp: seq<nat>): set<Ref> {
    set r | 0 <= r < |sp| && sp[r] != 0
  }

  /** All slots are in use once only, below the next even slot, and not the spare odd slot. */
  ghost predicate SlotsOk(t: Trace, sp: seq<nat>, even: nat, odd: nat) {
    && |sp| == |t.ir|
    && SPS_FIRST <= even <= NSLOTS && even % 2 == 0
    && (odd != 0 ==> odd % 2 == 1 && SPS_FIRST <= odd < even)
    && (forall r :: 0 <= r < |sp| ==> SlotOk(t, sp, even, odd, r))
    && SlotsApart(t, sp)
  }

  /** Register r is allocated, to a live reference of its class, which knows it. */
  predicate Owned(t: Trace, v: View, r: Reg)
    requires |v.cost| == NREGS && |v.rs| == |t.ir| && r < NREGS
  {
    v.cost[r] < |t.ir| && v.rs[v.cost[r]] == InReg(r) && r in ClassOf(t.ir[v.cost[r]]) && !t.ir[v.cost[r]].XStore?
    && v.cost[r] < v.cur
  }

  /** If reference ref says that it is in a register, the register agrees. */
  predicate Placed(v: View, ref: Ref)
    requires |v.cost| == NREGS && ref < |v.rs|
  {
    v.rs[ref].InReg? ==> v.rs[ref].reg in ALL && v.rs[ref].reg !in v.free && v.cost[v.rs[ref].reg] == ref
  }

  predicate EndingOk(t: Trace, ending: Ending) {
    && (forall r :: r in ending.regs ==> r in ALL && ending.regs[r] < |t.ir|)
    && (forall ref :: ref in ending.slots ==> ref < |t.ir|)
  }

  ghost predicate ValidView(t: Trace, v: View) {
    && WellFormed(t) && EndingOk(t, v.ending)
    && |v.cost| == NREGS && |v.rs| == |v.sp| == |t.ir| && v.cur <= |t.ir|
    && v.free <= ALL
    && (forall r :: r in ALL && r !in v.free ==> Owned(t, v, r))
    && (forall ref :: 0 <= ref < v.cur ==> Placed(v, ref))
    && SlotsOk(t, v.sp, v.even, v.odd)
  }

  /** The slot of reference r holds value x. */
  predicate SlotHolds(m: MState, slot: nat, wide: bool, x: Val)
    requires Sane(m)
  {
    slot < NSLOTS && m.slots[slot] == x && (wide ==> slot + 1 < NSLOTS && m.slots[slot + 1] == x)
  }

  predicate IsPending(p: Option<Pending>, r: Reg) { p.Some? && p.value.reg == r }

  /** Machine state m is what the code emitted so far expects: each allocated register holds its
      owner's value, each earlier reference with a slot is in it, and a pending register holds
      the value just computed (whatever its register is used for before). */
  ghost predicate Holds(t: Trace, w: World, v: View, p: Option<Pending>, m: MState)
    requires ValidView(t, v)
    requires p.Some? ==> p.value.ref < |t.ir|
  {
    && Sane(m) && (forall ref :: ref in w.given ==> ref < v.cur)
    && (forall r :: r in ALL && r !in v.free && !IsPending(p, r) ==> m.regs[r] == Value(t, w, v.cost[r]))
    && (p.Some? ==> p.value.reg < NREGS && m.regs[p.value.reg] == Value(t, w, p.value.ref))
    && (forall ref :: 0 <= ref < v.cur && v.sp[ref] != 0 ==>
          SlotHolds(m, v.sp[ref], IsNum(t.ir[ref]), Value(t, w, ref)))
    && m.out == Stores(t, w, v.cur)
  }

  /** The code has left behind what it has to. */
  ghost predicate Met(t: Trace, w: World, ending: Ending, m: MState)
    requires WellFormed(t) && EndingOk(t, ending)
  {
    && Sane(m)
    && (forall r :: r in ending.regs ==> m.regs[r] == Value(t, w, ending.regs[r]))
    && (forall ref :: ref in ending.slots ==> SlotHolds(m, ending.slots[ref], IsNum(t.ir[ref]), Value(t, w, ref)))
  }

  ghost predicate Ends(t: Trace, w: World, ending: Ending, m: MState)
    requires WellFormed(t) && EndingOk(t, ending)
  {
    m.out == Stores(t, w, |t.ir|) && Met(t, w, ending, m)
  }

  /** From every state that the view allows, the code performs exactly the stores of the trace,
      and leaves behind what it has to. */
  ghost predicate Sound(t: Trace, code: seq<MIns>, v: View, p: Option<Pending>)
    requires ValidView(t, v)
    requires p.Some? ==> p.value.ref < |t.ir|
  {
    forall w: World, m: MState :: Holds(t, w, v, p, m) ==> Ends(t, w, v.ending, Run(code, w, m))
  }

  /** Before instruction `ins`, view v with p is enough to reach view v' with p' after it. */
  ghost predicate Leads(t: Trace, ins: MIns, v: View, p: Option<Pending>, v': View, p': Option<Pending>)
    requires ValidView(t, v) && ValidView(t, v')
    requires p.Some? ==> p.value.ref < |t.ir|
    requires p'.Some? ==> p'.value.ref < |t.ir|
  {
    forall w: World, at: nat, m: MState :: Holds(t, w, v, p, m) ==> Holds(t, w, v', p', Step(ins, w, at, m))
  }

  /** Backwards code generation: prepending an instruction moves soundness to the view before it. */
  lemma Prepend(t: Trace, ins: MIns, code: seq<MIns>, v: View, p: Option<Pending>, v': View, p': Option<Pending>)
    requires ValidView(t, v) && ValidView(t, v')
    requires p.Some? ==> p.value.ref < |t.ir|
    requires p'.Some? ==> p'.value.ref < |t.ir|
    requires v.ending == v'.ending && Leads(t, ins, v, p, v', p') && Sound(t, code, v', p')
    ensures Sound(t, [ins] + code, v, p)
  {
    forall w: World, m: MState | Holds(t, w, v, p, m)
      ensures Ends(t, w, v.ending, Run([ins] + code, w, m))
    {
      var m' := Step(ins, w, |code| + 1, m);
      assert Holds(t, w, v', p', m');
      assert ([ins] + code)[1..] == code;
    }
  }

  /** Views that differ only in what has to be left behind. */
  lemma SameButEnding(t: Trace, v: View, v': View)
    requires ValidView(t, v) && v' == v.(ending := v'.ending) && EndingOk(t, v'.ending)
    ensures ValidView(t, v')
  {
    forall x | x in ALL && x !in v'.free
      ensures Owned(t, v', x)
    {
      assert Owned(t, v, x);
    }
    forall a | 0 <= a < v'.cur
      ensures Placed(v', a)
    {
      assert Placed(v, a);
    }
  }

  /** A view that demands more is sound for the same code. */
  lemma Weaken(t: Trace, code: seq<MIns>, v: View, p: Option<Pending>, v': View, p': Option<Pending>)
    requires ValidView(t, v) && ValidView(t, v')
    requires p.Some? ==> p.value.ref < |t.ir|
    requires p'.Some? ==> p'.value.ref < |t.ir|
    requires v.ending == v'.ending && Sound(t, code, v', p')
    requires forall w: World, m: MState :: Holds(t, w, v, p, m) ==> Holds(t, w, v', p', m)
    ensures Sound(t, code, v, p)
  {}

  // ---------------------------------------------------------------- transitions of the view

  /** Reference ref gets register r. */
  function Assigned(v: View, ref: Ref, r: Reg): View
    requires ref < |v.rs| && r < |v.cost|
  {
    v.(free := v.free - {r}, rs := v.rs[ref := InReg(r)], cost := v.cost[r := ref])
  }

  /** Register r of reference ref is given up. */
  function Released(v: View, ref: Ref, r: Reg, state: RState): View
    requires ref < |v.rs|
  {
    v.(free := v.free + {r}, rs := v.rs[ref := state])
  }

  /** The program point moves before entry i, which leaves its value in d. */
  function Defined(v: View, i: Ref, d: Reg): View
    requires i < |v.rs|
  {
    v.(free := v.free + {d}, rs := v.rs[i := InReg(d)], cur := i)
  }

  predicate PendingOk(t: Trace, p: Option<Pending>) { p.Some? ==> p.value.ref < |t.ir| }


  lemma AssignSound(t: Trace, code: seq<MIns>, v: View, p: Option<Pending>, ref: Ref, r: Reg)
    requires ValidView(t, v) && PendingOk(t, p) && Sound(t, code, v, p)
    requires ref < v.cur && !v.rs[ref].InReg? && r in v.free && r in ClassOf(t.ir[ref]) && !t.ir[ref].XStore?
    ensures ValidView(t, Assigned(v, ref, r)) && Sound(t, code, Assigned(v, ref, r), p)
  {
    var v' := Assigned(v, ref, r);
    forall x | x in ALL && x !in v'.free
      ensures Owned(t, v', x)
    {
      if x != r { assert Owned(t, v, x); }
    }
    forall a | 0 <= a < v.cur
      ensures Placed(v', a)
    {
      assert Placed(v, a) && r in ALL;
    }
    Weaken(t, code, v', p, v, p);
  }

  function Remat(t: Trace, ref: Ref, r: Reg): MIns
    requires WellFormed(t) && ref < t.first
  {
    match t.ir[ref]
    case KInt(k) => LoadK(r, Wrap(k))
    case KNum(n) => LoadK(r, n)
    case _ => LoadBase(r)
  }

  lemma ReleaseValid(t: Trace, v: View, ref: Ref, r: Reg, state: RState)
    requires ValidView(t, v) && ref < v.cur && v.rs[ref] == InReg(r) && !state.InReg?
    ensures ValidView(t, Released(v, ref, r, state))
  {
    var v' := Released(v, ref, r, state);
    assert Placed(v, ref);
    forall x | x in ALL && x !in v'.free
      ensures Owned(t, v', x)
    {
      assert Owned(t, v, x);
    }
    forall a | 0 <= a < v'.cur
      ensures Placed(v', a)
    {
      assert Placed(v, a);
    }
  }

  /** A constant's register is freed: it is loaded again for the code that follows. */
  lemma RematSound(t: Trace, code: seq<MIns>, v: View, p: Option<Pending>, ref: Ref, r: Reg, state: RState)
    requires ValidView(t, v) && PendingOk(t, p) && Sound(t, code, v, p)
    requires ref < t.first && ref < v.cur && v.rs[ref] == InReg(r) && !IsPending(p, r) && !state.InReg?
    ensures ValidView(t, Released(v, ref, r, state))
    ensures Sound(t, [Remat(t, ref, r)] + code, Released(v, ref, r, state), p)
  {
    var v' := Released(v, ref, r, state);
    assert Placed(v, ref);
    ReleaseValid(t, v, ref, r, state);
    var ins := Remat(t, ref, r);
    forall w: World, at: nat, m: MState | Holds(t, w, v', p, m)
      ensures Holds(t, w, v, p, Step(ins, w, at, m))
    {
      assert Step(ins, w, at, m) == Set(m, r, Value(t, w, ref));
    }
    Prepend(t, ins, code, v', p, v, p);
  }

  /** A slot is allocated: demanding that it holds its value costs nothing. */
  lemma SlotSound(t: Trace, code: seq<MIns>, v: View, p: Option<Pending>, ref: Ref, s: nat, even: nat, odd: nat)
    requires ValidView(t, v) && PendingOk(t, p) && Sound(t, code, v, p)
    requires ref < v.cur && v.sp[ref] == 0 && s != 0 && SlotsOk(t, v.sp[ref := s], even, odd)
    ensures var v' := v.(sp := v.sp[ref := s], even := even, odd := odd);
            ValidView(t, v') && Sound(t, code, v', p)
  {
    var v' := v.(sp := v.sp[ref := s], even := even, odd := odd);
    forall x | x in ALL && x !in v'.free
      ensures Owned(t, v', x)
    {
      assert Owned(t, v, x);
    }
    forall a | 0 <= a < v'.cur
      ensures Placed(v', a)
    {
      assert Placed(v, a);
    }
    forall w: World, m: MState | Holds(t, w, v', p, m)
      ensures Holds(t, w, v, p, m)
    {
      assert forall a :: 0 <= a < v.cur && v.sp[a] != 0 ==> v'.sp[a] == v.sp[a];
    }
    Weaken(t, code, v', p, v, p);
  }

  /** A spilled reference's register is freed: it is reloaded for the code that follows. */
  lemma RestoreSound(t: Trace, code: seq<MIns>, v: View, p: Option<Pending>, ref: Ref, r: Reg)
    requires ValidView(t, v) && PendingOk(t, p) && Sound(t, code, v, p)
    requires ref < v.cur && v.rs[ref] == InReg(r) && !IsPending(p, r) && v.sp[ref] != 0
    ensures ValidView(t, Released(v, ref, r, Hint(r)))
    ensures Sound(t, [SpLoad(r, v.sp[ref], IsNum(t.ir[ref]))] + code, Released(v, ref, r, Hint(r)), p)
  {
    var v' := Released(v, ref, r, Hint(r));
    var ins := SpLoad(r, v.sp[ref], IsNum(t.ir[ref]));
    assert Placed(v, ref);
    ReleaseValid(t, v, ref, r, Hint(r));
    forall w: World, at: nat, m: MState | Holds(t, w, v', p, m)
      ensures Holds(t, w, v, p, Step(ins, w, at, m))
    {
      assert SlotHolds(m, v.sp[ref], IsNum(t.ir[ref]), Value(t, w, ref));
    }
    Prepend(t, ins, code, v', p, v, p);
  }

  // ---------------------------------------------------------------- definitions

  /** A destination register is freed: before this point its definition is all that is left. */
  lemma DefineValid(t: Trace, v: View, i: Ref, d: Reg)
    requires ValidView(t, v) && v.cur == i + 1 && d in ALL
    requires v.rs[i] == InReg(d) || (!v.rs[i].InReg? && d in v.free)
    ensures ValidView(t, Defined(v, i, d))
  {
    var v' := Defined(v, i, d);
    assert Placed(v, i);
    forall x | x in ALL && x !in v'.free
      ensures Owned(t, v', x)
    {
      assert Owned(t, v, x);
    }
    forall a | 0 <= a < v'.cur
      ensures Placed(v', a)
    {
      assert Placed(v, a);
    }
  }

  /** `ra_dest`: the value of entry i becomes pending in d, and is saved if i has a slot. */
  lemma DefineSound(t: Trace, code: seq<MIns>, v: View, i: Ref, d: Reg)
    requires ValidView(t, v) && v.cur == i + 1 && Sound(t, code, v, None) && !t.ir[i].XStore?
    requires d in ALL && (v.rs[i] == InReg(d) || (!v.rs[i].InReg? && d in v.free))
    ensures ValidView(t, Defined(v, i, d))
    ensures Sound(t, if v.sp[i] != 0 then [SpStore(d, v.sp[i], IsNum(t.ir[i]))] + code else code,
                  Defined(v, i, d), Some(Pending(d, i)))
  {
    hide Sound, Step, Value, SlotsOk, Owned, Placed, SlotHolds, Stores;
    var v', p := Defined(v, i, d), Some(Pending(d, i));
    DefineValid(t, v, i, d);
    if v.sp[i] != 0 {
      var ins := SpStore(d, v.sp[i], IsNum(t.ir[i]));
      forall w: World, at: nat, m: MState | Holds(t, w, v', p, m)
        ensures Holds(t, w, v, None, Step(ins, w, at, m))
      {
        SaveSlot(t, w, v, i, d, at, m);
      }
      Prepend(t, ins, code, v', p, v, None);
    } else {
      forall w: World, m: MState | Holds(t, w, v', p, m)
        ensures Holds(t, w, v, None, m)
      {
        DefineUnsaved(t, w, v, i, d, m);
      }
      Weaken(t, code, v', p, v, None);
    }
  }

  lemma DefineUnsaved(t: Trace, w: World, v: View, i: Ref, d: Reg, m: MState)
    requires ValidView(t, v) && v.cur == i + 1 && d in ALL && v.sp[i] == 0 && !t.ir[i].XStore?
    requires v.rs[i] == InReg(d) || (!v.rs[i].InReg? && d in v.free)
    requires ValidView(t, Defined(v, i, d)) && Holds(t, w, Defined(v, i, d), Some(Pending(d, i)), m)
    ensures Holds(t, w, v, None, m)
  {
    hide SlotsOk, SlotHolds, Value;
    assert Placed(v, i);
    assert Stores(t, w, v.cur) == Stores(t, w, i);
  }

  /** A save leaves a slot alone that it does not overlap. */
  lemma SaveElsewhere(w: World, at: nat, m: MState, d: Reg, s: nat, wide: bool, s2: nat, wide2: bool, x: Val)
    requires Sane(m) && SlotHolds(m, s2, wide2, x)
    requires s2 != s && (wide ==> s2 != s + 1) && (wide2 ==> s != s2 + 1)
    ensures SlotHolds(Step(SpStore(d, s, wide), w, at, m), s2, wide2, x)
  {}

  lemma SavedSlots(t: Trace, w: World, v: View, i: Ref, d: Reg, at: nat, m: MState)
    requires WellFormed(t) && SlotsOk(t, v.sp, v.even, v.odd) && i < |t.ir| && v.sp[i] != 0 && v.cur == i + 1
    requires Sane(m) && d in ALL && m.regs[d] == Value(t, w, i)
    requires forall a :: 0 <= a < i && v.sp[a] != 0 ==> SlotHolds(m, v.sp[a], IsNum(t.ir[a]), Value(t, w, a))
    ensures forall a :: 0 <= a < v.cur && v.sp[a] != 0 ==>
              SlotHolds(Step(SpStore(d, v.sp[i], IsNum(t.ir[i])), w, at, m), v.sp[a], IsNum(t.ir[a]), Value(t, w, a))
  {
    var s, wide := v.sp[i], IsNum(t.ir[i]);
    var m' := Step(SpStore(d, s, wide), w, at, m);
    assert SlotOk(t, v.sp, v.even, v.odd, i);
    forall a | 0 <= a < v.cur && v.sp[a] != 0
      ensures SlotHolds(m', v.sp[a], IsNum(t.ir[a]), Value(t, w, a))
    {
      if a < i { SaveElsewhere(w, at, m, d, s, wide, v.sp[a], IsNum(t.ir[a]), Value(t, w, a)); }
    }
  }

  /** The save puts the value in its own slot and leaves all other slots alone. */
  lemma SaveSlot(t: Trace, w: World, v: View, i: Ref, d: Reg, at: nat, m: MState)
    requires ValidView(t, v) && v.cur == i + 1 && v.sp[i] != 0 && !t.ir[i].XStore?
    requires d in ALL && (v.rs[i] == InReg(d) || (!v.rs[i].InReg? && d in v.free))
    requires ValidView(t, Defined(v, i, d)) && Holds(t, w, Defined(v, i, d), Some(Pending(d, i)), m)
    ensures Holds(t, w, v, None, Step(SpStore(d, v.sp[i], IsNum(t.ir[i])), w, at, m))
  {
    hide SlotHolds, Owned, Value;
    var s, wide := v.sp[i], IsNum(t.ir[i]);
    var m' := Step(SpStore(d, s, wide), w, at, m);
    assert Placed(v, i);
    assert m'.regs == m.regs && m'.out == m.out;
    SavedSlots(t, w, v, i, d, at, m);
    assert Stores(t, w, v.cur) == Stores(t, w, i);
    hide SlotsOk, Step;
  }

  /** An instruction that only writes its destination d, with the pending value. */
  lemma OpSound(t: Trace, code: seq<MIns>, v: View, d: Reg, i: Ref, ins: MIns)
    requires ValidView(t, v) && i < |t.ir| && d in ALL && Sound(t, code, v, Some(Pending(d, i)))
    requires forall w: World, at: nat, m: MState :: Holds(t, w, v, None, m) ==>
               Step(ins, w, at, m) == Set(m, d, Value(t, w, i))
    ensures Sound(t, [ins] + code, v, None)
  {
    var p := Some(Pending(d, i));
    forall w: World, at: nat, m: MState | Holds(t, w, v, None, m)
      ensures Holds(t, w, v, p, Step(ins, w, at, m))
    {}
    Prepend(t, ins, code, v, None, v, p);
  }

  /** The pending value of d is moved there from s. */
  lemma MoveSound(t: Trace, code: seq<MIns>, v: View, d: Reg, s: Reg, i: Ref)
    requires ValidView(t, v) && i < |t.ir| && d in ALL && s in ALL && Sound(t, code, v, Some(Pending(d, i)))
    requires s in v.free && d in v.free
    ensures Sound(t, [Mov(d, s)] + code, v, Some(Pending(s, i)))
  {
    var p, q := Some(Pending(s, i)), Some(Pending(d, i));
    forall w: World, at: nat, m: MState | Holds(t, w, v, p, m)
      ensures Holds(t, w, v, q, Step(Mov(d, s), w, at, m))
    {}
    Prepend(t, Mov(d, s), code, v, p, v, q);
  }

  /** The pending register is the owner's register: nothing is pending any more. */
  lemma SettleSound(t: Trace, code: seq<MIns>, v: View, d: Reg, ref: Ref)
    requires ValidView(t, v) && ref < v.cur && Sound(t, code, v, Some(Pending(d, ref)))
    requires v.rs[ref] == InReg(d)
    ensures Sound(t, code, v, None)
  {
    assert Placed(v, ref);
    Weaken(t, code, v, None, v, Some(Pending(d, ref)));
  }

  /** The call finds its argument pending in the argument register and leaves the result. */
  lemma CallSound(t: Trace, code: seq<MIns>, v: View, i: Ref)
    requires ValidView(t, v) && v.cur <= i < |t.ir| && t.ir[i].Round? && Sound(t, code, v, Some(Pending(RID_FPRET, i)))
    requires forall r :: r in ROUND_CLOBBERS ==> r in v.free
    ensures EntryOk(t, i) && t.ir[i].op1 < i
    ensures Sound(t, [CallRound] + code, v, Some(Pending(REGARG_FIRSTFPR, t.ir[i].op1)))
  {
    assert EntryOk(t, i);
    var p, q := Some(Pending(REGARG_FIRSTFPR, t.ir[i].op1)), Some(Pending(RID_FPRET, i));
    forall w: World, at: nat, m: MState | Holds(t, w, v, p, m)
      ensures Holds(t, w, v, q, Step(CallRound, w, at, m))
    {}
    Prepend(t, CallRound, code, v, p, v, q);
  }

  lemma BackValid(t: Trace, v: View, i: Ref)
    requires ValidView(t, v) && v.cur == i + 1 && !v.rs[i].InReg?
    ensures ValidView(t, v.(cur := i))
  {
    var v' := v.(cur := i);
    forall x | x in ALL && x !in v'.free
      ensures Owned(t, v', x)
    {
      assert Owned(t, v, x);
    }
    forall a | 0 <= a < v'.cur
      ensures Placed(v', a)
    {
      assert Placed(v, a);
    }
  }

  lemma StoreStep(t: Trace, w: World, v: View, i: Ref, s: Reg, b: Reg, at: nat, m: MState)
    requires ValidView(t, v) && v.cur == i + 1 && ValidView(t, v.(cur := i)) && Holds(t, w, v.(cur := i), None, m)
    requires i >= t.first && t.ir[i].XStore? && EntryOk(t, i)
    requires Get(m, b) == Value(t, w, t.ir[i].op1) && Get(m, s) == Value(t, w, t.ir[i].op2)
    ensures Holds(t, w, v, None, Step(StoreX(s, b), w, at, m))
  {
    hide Value, Owned;
    assert SlotOk(t, v.sp, v.even, v.odd, i);
  }

  /** A store to memory whose operands are in s and b. */
  lemma StoreSound(t: Trace, code: seq<MIns>, v: View, i: Ref, s: Reg, b: Reg)
    requires ValidView(t, v) && v.cur == i + 1 && Sound(t, code, v, None)
    requires i >= t.first && t.ir[i].XStore? && !v.rs[i].InReg?
    requires EntryOk(t, i) && ValidView(t, v.(cur := i))
    requires forall w: World, m: MState :: Holds(t, w, v.(cur := i), None, m) ==>
               Get(m, b) == Value(t, w, t.ir[i].op1) && Get(m, s) == Value(t, w, t.ir[i].op2)
    ensures Sound(t, [StoreX(s, b)] + code, v.(cur := i), None)
  {
    hide Sound, SlotsOk, Owned, Placed, SlotHolds, Value, EntryOk;
    var v' := v.(cur := i);
    forall w: World, at: nat, m: MState | Holds(t, w, v', None, m)
      ensures Holds(t, w, v, None, Step(StoreX(s, b), w, at, m))
    {
      StoreStep(t, w, v, i, s, b, at, m);
    }
    Prepend(t, StoreX(s, b), code, v', None, v, None);
  }

  /** Dead code: an entry that nothing uses and that stores nothing needs no code. */
  lemma SkipSound(t: Trace, code: seq<MIns>, v: View, i: Ref)
    requires ValidView(t, v) && v.cur == i + 1 && Sound(t, code, v, None)
    requires !t.ir[i].XStore? && !v.rs[i].InReg? && v.sp[i] == 0
    ensures ValidView(t, v.(cur := i)) && Sound(t, code, v.(cur := i), None)
  {
    BackValid(t, v, i);
    Weaken(t, code, v.(cur := i), None, v, None);
  }

  /** A hint changes nothing that matters. */
  lemma HintSound(t: Trace, code: seq<MIns>, v: View, p: Option<Pending>, ref: Ref, h: Reg)
    requires ValidView(t, v) && PendingOk(t, p) && Sound(t, code, v, p)
    requires ref < |t.ir| && !v.rs[ref].InReg?
    ensures ValidView(t, v.(rs := v.rs[ref := Hint(h)])) && Sound(t, code, v.(rs := v.rs[ref := Hint(h)]), p)
  {
    var v' := v.(rs := v.rs[ref := Hint(h)]);
    forall x | x in ALL && x !in v'.free
      ensures Owned(t, v', x)
    {
      assert Owned(t, v, x);
    }
    forall a | 0 <= a < v'.cur
      ensures Placed(v', a)
    {
      assert Placed(v, a);
    }
    Weaken(t, code, v', p, v, p);
  }

  /** r serves as an operand register for ref: the zero register, or a register ref owns. */
  predicate Has(t: Trace, v: View, ref: Ref, r: Reg)
    requires ref < |t.ir| && |v.cost| == NREGS
  {
    (r == RID_ZERO && t.ir[ref] == KInt(0)) || (r in ALL && r !in v.free && v.cost[r] == ref)
  }

  lemma HasValue(t: Trace, w: World, v: View, ref: Ref, r: Reg, m: MState)
    requires ValidView(t, v) && ref < |t.ir| && Has(t, v, ref, r) && Holds(t, w, v, None, m)
    ensures Get(m, r) == Value(t, w, ref)
  {}

  /** Between two views only registers in `allow` changed hands. */
  ghost predicate SameOutside(v: View, v': View, allow: set<Reg>) {
    && v.cur == v'.cur && |v'.cost| == |v.cost| && |v'.rs| == |v.rs|
    && (forall r :: r !in allow ==> (r in v.free <==> r in v'.free))
    && (forall r :: 0 <= r < |v.cost| && r !in allow ==> v'.cost[r] == v.cost[r])
  }

  /** Reference ref gave up register r, and nothing else happened to the registers. */
  ghost predicate Gave(v: View, v': View, ref: Ref, r: Reg) {
    && v'.cur == v.cur && v'.cost == v.cost && v'.free == v.free + {r} && |v'.rs| == |v.rs|
    && (ref < |v.rs| ==> !v'.rs[ref].InReg?)
    && (forall a :: 0 <= a < |v.rs| && a != ref ==> v'.rs[a] == v.rs[a])
  }

  /** References that were in no register kept their state and their slot; no other register is used. */
  ghost predicate OthersKept(v: View, v': View) {
    && |v'.rs| == |v.rs| && |v'.sp| == |v.sp| == |v.rs|
    && (forall a :: 0 <= a < |v.rs| && !v.rs[a].InReg? ==> v'.rs[a] == v.rs[a] && v'.sp[a] == v.sp[a])
    && (forall a :: 0 <= a < |v.rs| && v'.rs[a].InReg? ==> v'.rs[a] == v.rs[a])
  }

  /** A new slot: the next even slot, with its odd half kept for later, or a spare odd slot. */
  lemma FreshSlot(t: Trace, sp: seq<nat>, even: nat, odd: nat, ref: Ref, s: nat, even': nat, odd': nat)
    requires SlotsOk(t, sp, even, odd) && WellFormed(t) && t.first <= ref < |t.ir| && sp[ref] == 0 && !t.ir[ref].XStore?
    requires if IsNum(t.ir[ref]) then s == even && even' == even + 2 && odd' == odd
             else if odd != 0 then s == odd && even' == even && odd' == 0
             else s == even && even' == even + 2 && odd' == even + 1
    requires even' <= NSLOTS
    ensures s != 0 && SlotsOk(t, sp[ref := s], even', odd')
  {
    var sp' := sp[ref := s];
    forall r | 0 <= r < |sp'|
      ensures SlotOk(t, sp', even', odd', r)
    {
      assert SlotOk(t, sp, even, odd, r);
    }
    forall a, b | 0 <= a < b < |sp'| && sp'[a] != 0 && sp'[b] != 0
      ensures sp'[a] != sp'[b] && (IsNum(t.ir[a]) ==> sp'[b] != sp'[a] + 1) && (IsNum(t.ir[b]) ==> sp'[a] != sp'[b] + 1)
    {
      assert SlotOk(t, sp, even, odd, a) && SlotOk(t, sp, even, odd, b);
    }
  }

  lemma OneSpilled(sp: seq<nat>, ref: Ref, s: nat)
    requires ref < |sp| && sp[ref] == 0 && s != 0
    ensures |Spilled(sp[ref := s])| == |Spilled(sp)| + 1
  {
    assert Spilled(sp[ref := s]) == Spilled(sp) + {ref};
  }

  lemma {:induction false} SubsetSize(s: set<nat>, lo: nat, hi: nat)
    requires lo <= hi && forall r :: r in s ==> lo <= r < hi
    ensures |s| <= hi - lo
    decreases hi - lo
  {
    if lo < hi {
      var rest := s - {lo};
      SubsetSize(rest, lo + 1, hi);
      assert s <= rest + {lo};
      assert lo in s ==> s == rest + {lo};
      assert lo !in s ==> s == rest;
    } else {
      assert s == {};
    }
  }

  predicate Injective(m: map<Reg, Reg>) { forall k, l :: k in m && l in m && k != l ==> m[k] != m[l] }

  lemma {:induction false} InjectiveSize(m: map<Reg, Reg>)
    requires Injective(m)
    ensures |m.Values| == |m.Keys|
    decreases |m|
  {
    if m.Keys != {} {
      var k :| k in m.Keys;
      var n := m - {k};
      InjectiveSize(n);
      assert m.Keys == n.Keys + {k} && m.Values == n.Values + {m[k]};
    }
  }

  lemma SubsetFull(s: set<Reg>, t: set<Reg>)
    requires s <= t && |s| == |t|
    ensures s == t
  {
    assert t == s + (t - s);
  }

  /** An injective map of a finite set into itself reaches all of it. */
  lemma Reaches(m: map<Reg, Reg>, r: Reg) returns (q: Reg)
    requires Injective(m) && m.Values <= m.Keys && r in m.Keys
    ensures q in m && m[q] == r
  {
    hide Injective;
    InjectiveSize(m);
    SubsetFull(m.Values, m.Keys);
    assert r in m.Values;
    q :| q in m && m[q] == r;
  }

  lemma {:induction false} NoStores(t: Trace, w: World, n: nat)
    requires WellFormed(t) && n <= t.first
    ensures Stores(t, w, n) == []
  {
    if n > 0 { NoStores(t, w, n - 1); }
  }

  /** Once every register is free before the first entry, any machine state will do. */
  lemma StartSound(t: Trace, code: seq<MIns>, v: View)
    requires ValidView(t, v) && v.cur == t.first && v.free == ALL && Sound(t, code, v, None)
    ensures forall w: World, m: MState :: Sane(m) && m.out == [] && w.given == map[] ==>
              Ends(t, w, v.ending, Run(code, w, m))
  {
    forall w: World, m: MState | Sane(m) && m.out == [] && w.given == map[]
      ensures Ends(t, w, v.ending, Run(code, w, m))
    {
      NoStores(t, w, t.first);
      forall ref | 0 <= ref < v.cur
        ensures v.sp[ref] == 0
      {
        assert SlotOk(t, v.sp, v.even, v.odd, ref);
      }
      assert Holds(t, w, v, None, m);
    }
  }
}
