/** What code may write, and how the registers of PHIs are shuffled at the start of a loop body
    (luajit/lj_asm.c). */
module RegShuffle {
  import opened RegAllocModel

  // ---------------------------------------------------------------- what code writes

  function Writes(ins: MIns): set<Reg> {
    match ins
    case SpStore(_, _, _) => {}
    case StoreX(_, _) => {}
    case CallRound => ROUND_CLOBBERS
    case _ => {ins.d}
  }

  /** Reference ref is saved in this slot; it is computed at or after this point, or is the left
      operand of a PHI. */
  predicate SavesIn(t: Trace, sp: seq<nat>, cur: nat, lefts: set<Ref>, ref: Ref, slot: nat, wide: bool) {
    ref < |sp| && ref < |t.ir| && (cur <= ref || ref in lefts) && sp[ref] == slot != 0 && wide == IsNum(t.ir[ref])
  }

  /** An instruction writes to registers of `mod`, and to slots of its own references only. */
  ghost predicate Tame(t: Trace, ins: MIns, mod: set<Reg>, sp: seq<nat>, cur: nat, lefts: set<Ref>) {
    && Writes(ins) <= mod
    && (ins.SpStore? ==> exists ref :: SavesIn(t, sp, cur, lefts, ref, ins.slot, ins.wide))
  }

  ghost predicate AllTame(t: Trace, code: seq<MIns>, mod: set<Reg>, sp: seq<nat>, cur: nat, lefts: set<Ref>) {
    forall k :: 0 <= k < |code| ==> Tame(t, code[k], mod, sp, cur, lefts)
  }

  predicate EndsWith(code: seq<MIns>, body: seq<MIns>) {
    |body| <= |code| && code[|code| - |body|..] == body
  }

  /** What has to be in a slot at the end is in the slot of its reference. */
  predicate EndingKept(ending: Ending, sp: seq<nat>) {
    forall ref :: ref in ending.slots ==> ref < |sp| && sp[ref] == ending.slots[ref] != 0
  }

  /** The code ends with the loop body, and writes only what it is allowed to. */
  ghost predicate Tracks(t: Trace, code: seq<MIns>, body: seq<MIns>, mod: set<Reg>, sp: seq<nat>, cur: nat, lefts: set<Ref>,
                         ending: Ending) {
    mod <= ALL && EndsWith(code, body) && AllTame(t, code, mod, sp, cur, lefts) && EndingKept(ending, sp)
  }

  lemma TracksEmit(t: Trace, ins: MIns, code: seq<MIns>, body: seq<MIns>, mod: set<Reg>, sp: seq<nat>, cur: nat, lefts: set<Ref>,
                   ending: Ending)
    requires Tracks(t, code, body, mod, sp, cur, lefts, ending) && Tame(t, ins, mod, sp, cur, lefts)
    ensures Tracks(t, [ins] + code, body, mod, sp, cur, lefts, ending)
  {
    hide Tame;
    var all := [ins] + code;
    assert all[|all| - |body|..] == code[|code| - |body|..];
    assert all[1..] == code;
  }

  /** More registers are modified, more slots are in use, or fewer entries have been executed. */
  lemma TameGrow(t: Trace, code: seq<MIns>, mod: set<Reg>, sp: seq<nat>, cur: nat, mod': set<Reg>, sp': seq<nat>, cur': nat,
                 lefts: set<Ref>, lefts': set<Ref>)
    requires AllTame(t, code, mod, sp, cur, lefts) && mod <= mod' && cur' <= cur && |sp'| == |sp| && lefts <= lefts'
    requires forall ref :: 0 <= ref < |sp| && sp[ref] != 0 ==> sp'[ref] == sp[ref]
    ensures AllTame(t, code, mod', sp', cur', lefts')
  {
    forall k | 0 <= k < |code|
      ensures Tame(t, code[k], mod', sp', cur', lefts')
    {
      var ins := code[k];
      assert Tame(t, ins, mod, sp, cur, lefts);
      if ins.SpStore? {
        var ref: Ref :| SavesIn(t, sp, cur, lefts, ref, ins.slot, ins.wide);
        assert SavesIn(t, sp', cur', lefts', ref, ins.slot, ins.wide);
      }
    }
  }

  lemma TracksGrow(t: Trace, code: seq<MIns>, body: seq<MIns>, mod: set<Reg>, sp: seq<nat>, cur: nat,
                   mod': set<Reg>, sp': seq<nat>, cur': nat, lefts: set<Ref>, lefts': set<Ref>, ending: Ending)
    requires Tracks(t, code, body, mod, sp, cur, lefts, ending)
    requires mod <= mod' && mod' - mod <= ALL && cur' <= cur && |sp'| == |sp| && lefts <= lefts'
    requires forall ref :: 0 <= ref < |sp| && sp[ref] != 0 ==> sp'[ref] == sp[ref]
    ensures Tracks(t, code, body, mod', sp', cur', lefts', ending)
  {
    TameGrow(t, code, mod, sp, cur, mod', sp', cur', lefts, lefts');
  }

  /** Registers that no instruction writes keep their values. */
  lemma {:induction false} RegKept(t: Trace, code: seq<MIns>, mod: set<Reg>, sp: seq<nat>, cur: nat, lefts: set<Ref>,
                                   w: World, m: MState, r: Reg)
    requires AllTame(t, code, mod, sp, cur, lefts) && Sane(m) && r < NREGS && r !in mod
    ensures Run(code, w, m).regs[r] == m.regs[r]
  {
    if code != [] {
      assert Tame(t, code[0], mod, sp, cur, lefts);
      RegKept(t, code[1..], mod, sp, cur, lefts, w, Step(code[0], w, |code|, m), r);
    }
  }

  lemma SlotKeptStep(t: Trace, ins: MIns, mod: set<Reg>, v: View, lefts: set<Ref>, w: World, at: nat, m: MState, ref: Ref, x: Val)
    requires WellFormed(t) && SlotsOk(t, v.sp, v.even, v.odd) && Sane(m)
    requires Tame(t, ins, mod, v.sp, v.cur, lefts) && ref < v.cur && ref < |t.ir| == |v.sp| && ref !in lefts && v.sp[ref] != 0
    requires SlotHolds(m, v.sp[ref], IsNum(t.ir[ref]), x)
    ensures SlotHolds(Step(ins, w, at, m), v.sp[ref], IsNum(t.ir[ref]), x)
  {
    if ins.SpStore? {
      var a: Ref :| SavesIn(t, v.sp, v.cur, lefts, a, ins.slot, ins.wide);
      assert a != ref;
      assert SlotsApart(t, v.sp);
      assert v.sp[a] != v.sp[ref];
      SaveElsewhere(w, at, m, ins.s, ins.slot, ins.wide, v.sp[ref], IsNum(t.ir[ref]), x);
    }
  }

  /** Slots of references that are neither computed by the code nor PHIs keep their values. */
  lemma {:induction false} SlotKept(t: Trace, code: seq<MIns>, mod: set<Reg>, v: View, lefts: set<Ref>,
                                    w: World, m: MState, ref: Ref, x: Val)
    requires WellFormed(t) && SlotsOk(t, v.sp, v.even, v.odd) && Sane(m)
    requires AllTame(t, code, mod, v.sp, v.cur, lefts) && ref < v.cur && ref < |t.ir| == |v.sp| && ref !in lefts && v.sp[ref] != 0
    requires SlotHolds(m, v.sp[ref], IsNum(t.ir[ref]), x)
    ensures SlotHolds(Run(code, w, m), v.sp[ref], IsNum(t.ir[ref]), x)
  {
    hide SlotsOk, SlotHolds, Tame;
    if code != [] {
      SlotKeptStep(t, code[0], mod, v, lefts, w, |code|, m, ref, x);
      SlotKept(t, code[1..], mod, v, lefts, w, Step(code[0], w, |code|, m), ref, x);
    }
  }

  // ---------------------------------------------------------------- renames

  /** Reference ref moves from register down to the free register up. */
  function Renamed(v: View, ref: Ref, down: Reg, up: Reg): View
    requires ref < |v.rs| && up < |v.cost|
  {
    v.(free := v.free + {down} - {up}, cost := v.cost[up := ref], rs := v.rs[ref := InReg(up)])
  }

  lemma RenameValid(t: Trace, v: View, ref: Ref, down: Reg, up: Reg)
    requires ValidView(t, v) && ref < v.cur && v.rs[ref] == InReg(down)
    requires up in v.free && up in ClassOf(t.ir[ref])
    ensures ValidView(t, Renamed(v, ref, down, up)) && down in ALL && down !in v.free && down in ClassOf(t.ir[ref])
  {
    hide SlotsOk;
    var v' := Renamed(v, ref, down, up);
    assert Placed(v, ref) && Owned(t, v, down);
    forall x | x in ALL && x !in v'.free
      ensures Owned(t, v', x)
    {
      if x != up { assert Owned(t, v, x); }
    }
    forall a | 0 <= a < v'.cur
      ensures Placed(v', a)
    {
      assert Placed(v, a);
    }
  }

  /** Renaming needs a move in the other direction, for the code that follows. */
  lemma RenameSound(t: Trace, code: seq<MIns>, v: View, ref: Ref, down: Reg, up: Reg)
    requires ValidView(t, v) && ref < v.cur && v.rs[ref] == InReg(down) && Sound(t, code, v, None)
    requires up in v.free && up in ClassOf(t.ir[ref])
    ensures ValidView(t, Renamed(v, ref, down, up)) && Sound(t, [Mov(down, up)] + code, Renamed(v, ref, down, up), None)
  {
    var v' := Renamed(v, ref, down, up);
    RenameValid(t, v, ref, down, up);
    assert Placed(v, ref);
    forall w: World, at: nat, m: MState | Holds(t, w, v', None, m)
      ensures Holds(t, w, v, None, Step(Mov(down, up), w, at, m))
    {}
    Prepend(t, Mov(down, up), code, v', None, v, None);
  }

  /** The same when the code expects the value in the register that it moves to. */
  lemma RenamePendingSound(t: Trace, code: seq<MIns>, v: View, ref: Ref, down: Reg, up: Reg)
    requires ValidView(t, v) && ref < v.cur && v.rs[ref] == InReg(down) && Sound(t, code, v, Some(Pending(up, ref)))
    requires up in v.free && up in ClassOf(t.ir[ref])
    ensures ValidView(t, Renamed(v, ref, down, up)) && Sound(t, [Mov(down, up)] + code, Renamed(v, ref, down, up), None)
  {
    var v', p := Renamed(v, ref, down, up), Some(Pending(up, ref));
    RenameValid(t, v, ref, down, up);
    assert Placed(v, ref);
    forall w: World, at: nat, m: MState | Holds(t, w, v', None, m)
      ensures Holds(t, w, v, p, Step(Mov(down, up), w, at, m))
    {}
    Prepend(t, Mov(down, up), code, v', None, v, p);
  }

  // ---------------------------------------------------------------- PHI registers

  /** `left` has the left operand of each PHI register.  Each register file has a register that is
      no PHI register. */
  predicate LeftsOk(t: Trace, cur: nat, left: map<Reg, Ref>) {
    && cur <= |t.ir|
    && (forall r :: r in left ==> r in ALL && t.first <= left[r] < cur && !t.ir[left[r]].XStore? && r in ClassOf(t.ir[left[r]]))
    && (forall r, q :: r in left && q in left && r != q ==> left[r] != left[q])
    && GPR - left.Keys != {} && FPR - left.Keys != {}
  }

  /** The left operand of PHI register r is in some other register. */
  predicate Astray(v: View, left: map<Reg, Ref>, r: Reg) {
    r in left && left[r] < |v.rs| && v.rs[left[r]].InReg? && v.rs[left[r]].reg != r
  }

  ghost function Strayed(v: View, left: map<Reg, Ref>): set<Reg> {
    set r | r in left && Astray(v, left, r)
  }

  /** It can be renamed at once. */
  predicate Ready(v: View, left: map<Reg, Ref>, r: Reg) { Astray(v, left, r) && r in v.free }

  /** The left operand of another PHI is in PHI register r. */
  predicate TakenByOther(v: View, left: map<Reg, Ref>, r: Reg) {
    r in left && r !in v.free && r < |v.cost| && v.cost[r] in left.Values && v.cost[r] != left[r]
  }

  /** PHI register r is free, or holds its own left operand, which is nowhere else. */
  predicate Settled(v: View, left: map<Reg, Ref>, r: Reg) {
    r in left && !Astray(v, left, r) && (r in v.free || (r < |v.cost| && v.cost[r] == left[r]))
  }

  /** A pass that began in view v0 has still to look at the PHI registers in `work`. */
  ghost predicate Passing(v0: View, v: View, left: map<Reg, Ref>, work: set<Reg>, blocked: set<Reg>, blockedby: set<Reg>) {
    && work <= left.Keys && blocked <= left.Keys - work
    && (forall r :: r in left && r !in work && r !in blocked ==> Settled(v, left, r))
    && (forall r :: r in blocked && r !in v.free ==> TakenByOther(v, left, r))
    && (forall r :: r in blocked && Astray(v, left, r) ==> v.rs[left[r]].reg in blockedby)
    && Strayed(v, left) <= Strayed(v0, left)
    && (forall r :: r in left && Ready(v0, left, r) ==> (r in work && Ready(v, left, r)) || !Astray(v, left, r))
    && (forall r :: r in blocked && r in v.free ==> Strayed(v, left) < Strayed(v0, left))
  }

  lemma PassStart(v: View, left: map<Reg, Ref>)
    ensures Passing(v, v, left, left.Keys, {}, {})
  {}

  /** An allocated PHI register that does not hold its own left operand. */
  lemma NotItsOwn(t: Trace, v: View, left: map<Reg, Ref>, r: Reg)
    requires ValidView(t, v) && LeftsOk(t, v.cur, left) && r in left && r !in v.free && v.rs[left[r]] != InReg(r)
    ensures v.cost[r] != left[r] && v.cost[r] < v.cur && v.rs[v.cost[r]] == InReg(r)
  {
    assert Owned(t, v, r);
  }

  /** The register of an invariant is given up. */
  lemma PassRestored(t: Trace, v0: View, v: View, v': View, left: map<Reg, Ref>, work: set<Reg>, blocked: set<Reg>, blockedby: set<Reg>,
                     ref: Ref, r: Reg)
    requires ValidView(t, v) && LeftsOk(t, v.cur, left) && Passing(v0, v, left, work, blocked, blockedby)
    requires Gave(v, v', ref, r) && ref !in left.Values && r in work
    ensures Passing(v0, v', left, work, blocked, blockedby)
  {
    assert Strayed(v', left) == Strayed(v, left) by {
      forall q | q in left
        ensures Astray(v', left, q) == Astray(v, left, q)
      {
        assert left[q] in left.Values;
      }
    }
    forall q | q in left
      ensures Astray(v', left, q) == Astray(v, left, q)
      ensures left[q] < |v.rs| && v'.rs[left[q]] == v.rs[left[q]]
    {
      assert left[q] in left.Values;
    }
  }

  /** A PHI register needs nothing (any more). */
  lemma PassSettled(v0: View, v: View, left: map<Reg, Ref>, work: set<Reg>, blocked: set<Reg>, blockedby: set<Reg>, r: Reg)
    requires Passing(v0, v, left, work, blocked, blockedby) && r in work && Settled(v, left, r)
    ensures Passing(v0, v, left, work - {r}, blocked, blockedby)
  {}

  /** A PHI register is blocked. */
  lemma PassBlocked(v0: View, v: View, left: map<Reg, Ref>, work: set<Reg>, blocked: set<Reg>, blockedby: set<Reg>, r: Reg)
    requires Passing(v0, v, left, work, blocked, blockedby) && r in work && TakenByOther(v, left, r)
    ensures Passing(v0, v, left, work - {r}, blocked + {r},
                    if Astray(v, left, r) then blockedby + {v.rs[left[r]].reg} else blockedby)
  {}

  /** A left operand is renamed to its PHI register. */
  lemma PassRenamed(t: Trace, v0: View, v: View, left: map<Reg, Ref>, work: set<Reg>, blocked: set<Reg>, blockedby: set<Reg>, r: Reg)
    requires ValidView(t, v) && LeftsOk(t, v.cur, left) && Passing(v0, v, left, work, blocked, blockedby)
    requires r in work && Ready(v, left, r)
    ensures Passing(v0, Renamed(v, left[r], v.rs[left[r]].reg, r), left, work - {r}, blocked, blockedby)
  {
    var down := v.rs[left[r]].reg;
    var v' := Renamed(v, left[r], down, r);
    assert Placed(v, left[r]);
    forall q | q in left
      ensures q != r ==> Astray(v', left, q) == Astray(v, left, q) && v'.rs[left[q]] == v.rs[left[q]]
      ensures !Astray(v', left, r)
    {}
    assert Strayed(v', left) < Strayed(v, left) by {
      assert r in Strayed(v, left) && r !in Strayed(v', left);
    }
    forall q | q in left && q !in work - {r} && q !in blocked
      ensures Settled(v', left, q)
    {
      if q != r { assert Settled(v, left, q); }
    }
    forall q | q in blocked && q !in v'.free
      ensures TakenByOther(v', left, q)
    {
      assert q != r && TakenByOther(v, left, q);
    }
  }

  lemma InWork(v0: View, v: View, left: map<Reg, Ref>, work: set<Reg>, blocked: set<Reg>, blockedby: set<Reg>)
    requires Passing(v0, v, left, work, blocked, blockedby)
    ensures work <= left.Keys && blocked <= left.Keys
  {}

  /** Not all registers of a file are PHI registers. */
  lemma SpareRegister(t: Trace, cur: nat, left: map<Reg, Ref>, blocked: set<Reg>, allow: set<Reg>)
    requires LeftsOk(t, cur, left) && blocked <= left.Keys && (allow == GPR || allow == FPR)
    ensures allow - blocked != {}
  {
    var r :| r in allow - left.Keys;
    assert r in allow - blocked;
  }

  lemma LeftsInAll(t: Trace, cur: nat, left: map<Reg, Ref>)
    requires LeftsOk(t, cur, left)
    ensures left.Keys <= ALL
  {}

  /** What is known of a PHI register and its left operand, once all are in place. */
  lemma LeftFacts(t: Trace, v: View, left: map<Reg, Ref>, r: Reg)
    requires r in left && AllSettled(v, left) && LeftsOk(t, v.cur, left) && ValidView(t, v)
    ensures left[r] < v.cur <= |t.ir| == |v.sp| == |v.rs| && !t.ir[left[r]].XStore? && r in ClassOf(t.ir[left[r]]) && r < |v.cost|
    ensures if v.rs[left[r]].InReg? then v.rs[left[r]] == InReg(r) else r in v.free
  {
    assert Settled(v, left, r);
    if r !in v.free { assert Owned(t, v, r); }
  }

  /** No PHI is blocked any more: all are in place. */
  lemma PassDone(v0: View, v: View, left: map<Reg, Ref>, blockedby: set<Reg>)
    requires Passing(v0, v, left, {}, {}, blockedby)
    ensures AllSettled(v, left)
  {}

  /** Each blocked register waits for another one: they form cycles. */
  ghost predicate Cyclic(v: View, left: map<Reg, Ref>, c: set<Reg>) {
    forall r :: r in c ==> TakenByOther(v, left, r) && Astray(v, left, r) && v.rs[left[r]].reg in c
  }

  /** The PHI register of the left operand that is in register r. */
  ghost function HomeOf(v: View, left: map<Reg, Ref>, r: Reg): (q: Reg)
    ensures r < |v.cost| && v.cost[r] in left.Values ==> q in left && left[q] == v.cost[r]
  {
    if r < |v.cost| && v.cost[r] in left.Values then
      var q :| q in left && left[q] == v.cost[r];
      q
    else r
  }

  /** q is the PHI register whose left operand blocks PHI register r. */
  ghost predicate BlockedFor(v: View, left: map<Reg, Ref>, blocked: set<Reg>, blockedby: set<Reg>, r: Reg, q: Reg) {
    TakenByOther(v, left, r) && Astray(v, left, q) && q in blocked && v.rs[left[q]] == InReg(r) && r in blockedby
  }

  lemma BlockedOwner(t: Trace, v0: View, v: View, left: map<Reg, Ref>, blocked: set<Reg>, blockedby: set<Reg>, r: Reg)
    requires blocked !! v.free && r in blocked
    requires Passing(v0, v, left, {}, blocked, blockedby) && LeftsOk(t, v.cur, left) && ValidView(t, v)
    ensures BlockedFor(v, left, blocked, blockedby, r, HomeOf(v, left, r))
  {
    var q := HomeOf(v, left, r);
    assert TakenByOther(v, left, r) && Owned(t, v, r);
    assert Astray(v, left, q) && !Settled(v, left, q);
  }

  /** If no blocked register is free after a pass, then all left operands that are astray are in
      blocked registers, in cycles; so the blocked registers also block one another. */
  lemma BlockedPhisAreCycles(t: Trace, v0: View, v: View, left: map<Reg, Ref>, blocked: set<Reg>, blockedby: set<Reg>)
    requires blocked !! v.free && Passing(v0, v, left, {}, blocked, blockedby) && LeftsOk(t, v.cur, left) && ValidView(t, v)
    ensures Cyclic(v, left, blocked) && Strayed(v, left) == blocked && blocked <= blockedby
  {
    AstrayBlocked(v0, v, left, blocked, blockedby);
    hide Passing, ValidView, LeftsOk, HomeOf, Strayed;
    forall r | r in blocked
      ensures BlockedFor(v, left, blocked, blockedby, r, HomeOf(v, left, r))
    {
      BlockedOwner(t, v0, v, left, blocked, blockedby, r);
    }
    InCycles(v, left, blocked, blockedby);
  }

  lemma InCycles(v: View, left: map<Reg, Ref>, blocked: set<Reg>, blockedby: set<Reg>)
    requires forall r :: r in blocked ==> BlockedFor(v, left, blocked, blockedby, r, HomeOf(v, left, r))
    ensures Cyclic(v, left, blocked) && blocked <= Strayed(v, left) && blocked <= blockedby
  {
    hide HomeOf;
    var waits := map r | r in blocked :: HomeOf(v, left, r);
    assert Injective(waits);
    assert waits.Values <= waits.Keys;
    hide Injective;
    forall r | r in blocked
      ensures TakenByOther(v, left, r) && Astray(v, left, r) && v.rs[left[r]].reg in blocked
    {
      var q := Reaches(waits, r);
      assert BlockedFor(v, left, blocked, blockedby, q, HomeOf(v, left, q));
    }
  }

  lemma AstrayBlocked(v0: View, v: View, left: map<Reg, Ref>, blocked: set<Reg>, blockedby: set<Reg>)
    requires Passing(v0, v, left, {}, blocked, blockedby)
    ensures Strayed(v, left) <= blocked
  {
    forall r | r in Strayed(v, left)
      ensures r in blocked
    {
      assert Astray(v, left, r) && !Settled(v, left, r);
    }
  }

  /** Registers outside of a set stay as they are, and so does what is in them. */
  lemma OutsideStays(t: Trace, v: View, v': View, allow: set<Reg>, left: map<Reg, Ref>, r: Reg)
    requires ValidView(t, v) && ValidView(t, v') && SameOutside(v, v', allow) && LeftsOk(t, v.cur, left)
    requires Astray(v, left, r) && v.rs[left[r]].reg !in allow
    ensures v'.rs[left[r]] == v.rs[left[r]]
  {
    assert Placed(v, left[r]);
    assert Owned(t, v', v.rs[left[r]].reg);
  }

  lemma OutsideCur(v: View, v': View, allow: set<Reg>)
    requires SameOutside(v, v', allow)
    ensures v.cur == v'.cur && |v'.cost| == |v.cost| && |v'.rs| == |v.rs|
  {}

  lemma OutsideSame(v: View, allow: set<Reg>)
    ensures SameOutside(v, v, allow)
  {}

  lemma OutsideRenamed(v: View, v': View, some: set<Reg>, all: set<Reg>, ref: Ref, down: Reg, up: Reg)
    requires SameOutside(v, v', some) && some <= all && down in all && up in all && ref < |v'.rs| && up < |v'.cost|
    ensures SameOutside(v, Renamed(v', ref, down, up), all)
  {}

  lemma CyclesStay(t: Trace, v: View, v': View, allow: set<Reg>, left: map<Reg, Ref>, c: set<Reg>)
    requires ValidView(t, v) && ValidView(t, v') && SameOutside(v, v', allow) && LeftsOk(t, v.cur, left)
    requires Cyclic(v, left, c) && c !! allow
    ensures Cyclic(v', left, c)
  {
    hide ValidView, LeftsOk;
    forall r | r in c
      ensures TakenByOther(v', left, r) && Astray(v', left, r) && v'.rs[left[r]].reg in c
    {
      assert TakenByOther(v, left, r) && Astray(v, left, r);
      OutsideStays(t, v, v', allow, left, r);
    }
  }

  /** The part of the cycles in one register file is made of cycles. */
  lemma CyclesOfClass(t: Trace, v: View, left: map<Reg, Ref>, c: set<Reg>, file: set<Reg>)
    requires ValidView(t, v) && LeftsOk(t, v.cur, left) && Cyclic(v, left, c) && (file == GPR || file == FPR)
    ensures Cyclic(v, left, c * file)
  {
    forall r | r in c * file
      ensures TakenByOther(v, left, r) && Astray(v, left, r) && v.rs[left[r]].reg in c * file
    {
      assert TakenByOther(v, left, r) && Astray(v, left, r);
      assert Placed(v, left[r]) && Owned(t, v, v.rs[left[r]].reg);
    }
  }

  /** The owner of a blocked register is astray. */
  lemma HomeAstray(t: Trace, v: View, left: map<Reg, Ref>, c: set<Reg>, down: Reg)
    requires ValidView(t, v) && LeftsOk(t, v.cur, left) && Cyclic(v, left, c) && down in c
    ensures down < |v.cost| && v.cost[down] < |v.rs| && v.cost[down] < |t.ir| && v.cost[down] < v.cur && v.rs[v.cost[down]] == InReg(down)
    ensures down in ClassOf(t.ir[v.cost[down]])
    ensures forall r :: r in left && left[r] == v.cost[down] ==> Astray(v, left, r)
  {
    assert TakenByOther(v, left, down) && Owned(t, v, down);
  }

  /** Renaming moves nothing else. */
  lemma RenamedStrays(v: View, left: map<Reg, Ref>, ref: Ref, down: Reg, up: Reg)
    requires ref < |v.rs| && up < |v.cost| && v.rs[ref] == InReg(down)
    requires Astray(v, left, down) && left[down] != ref && down != up
    requires forall r :: r in left && left[r] == ref ==> Astray(v, left, r)
    ensures var v' := Renamed(v, ref, down, up); Ready(v', left, down) && Strayed(v', left) <= Strayed(v, left)
  {}

  /** Breaking a cycle: once its owner is renamed, a blocked register is free for its left operand. */
  lemma CycleBroken(t: Trace, v: View, left: map<Reg, Ref>, c: set<Reg>, down: Reg, up: Reg)
    requires down < |v.cost| && v.cost[down] < |v.rs| && up < |v.cost|
    requires up in v.free && down in c && Cyclic(v, left, c) && LeftsOk(t, v.cur, left) && ValidView(t, v)
    ensures var v' := Renamed(v, v.cost[down], down, up);
            Ready(v', left, down) && Strayed(v', left) <= Strayed(v, left)
  {
    HomeAstray(t, v, left, c, down);
    hide ValidView, LeftsOk;
    assert TakenByOther(v, left, down) && Astray(v, left, down);
    RenamedStrays(v, left, v.cost[down], down, up);
  }

  /** A loop over the passes comes to an end: each pass leaves fewer left operands astray, or makes
      the next one do so. */
  lemma PassProgress(v0: View, v: View, v': View, left: map<Reg, Ref>, blocked: set<Reg>, blockedby: set<Reg>)
    requires Passing(v0, v, left, {}, blocked, blockedby) && Strayed(v', left) <= Strayed(v, left)
    requires blocked * v.free != {} || SomeReady(v', left)
    ensures |Strayed(v', left)| < |Strayed(v0, left)| ||
            (|Strayed(v', left)| == |Strayed(v0, left)| && SomeReady(v', left) && !SomeReady(v0, left))
  {
    SubsetSmaller(Strayed(v', left), Strayed(v0, left));
    if SomeReady(v0, left) {
      var r :| r in left && Ready(v0, left, r);
      assert r in Strayed(v0, left) && r !in Strayed(v', left);
    }
  }

  lemma SubsetSmaller(s: set<Reg>, t: set<Reg>)
    requires s <= t
    ensures |s| <= |t| && (s != t ==> |s| < |t|)
  {
    assert t == s + (t - s);
  }

  ghost predicate SomeReady(v: View, left: map<Reg, Ref>) { exists r :: r in left && Ready(v, left, r) }

  lemma StraysShrink(v: View, v': View, left: map<Reg, Ref>)
    requires OthersKept(v, v')
    ensures Strayed(v', left) <= Strayed(v, left)
  {}

  /** A left operand that is ready stays so while other registers change hands. */
  lemma ReadyStays(t: Trace, v: View, v': View, allow: set<Reg>, left: map<Reg, Ref>, r: Reg)
    requires Ready(v, left, r) && v.rs[left[r]].reg !in allow && r !in allow
    requires SameOutside(v, v', allow) && LeftsOk(t, v.cur, left) && ValidView(t, v) && ValidView(t, v')
    ensures Ready(v', left, r)
  {
    OutsideStays(t, v, v', allow, left, r);
  }

  ghost predicate AllSettled(v: View, left: map<Reg, Ref>) { forall r :: r in left ==> Settled(v, left, r) }

  /** A ready left operand and its PHI register are in one register file. */
  lemma ReadyInFile(t: Trace, v: View, left: map<Reg, Ref>, r: Reg)
    requires r in GPR && Ready(v, left, r) && LeftsOk(t, v.cur, left) && ValidView(t, v)
    ensures r !in FPR && v.rs[left[r]].reg !in FPR
  {
    assert Placed(v, left[r]) && Owned(t, v, v.rs[left[r]].reg);
  }

  /** After breaks in both register files, one of them has left a left operand ready. */
  lemma OneReady(t: Trace, v1: View, v2: View, left: map<Reg, Ref>, blocked: set<Reg>)
    requires blocked != {} && blocked <= ALL && blocked <= left.Keys
    requires blocked * GPR != {} ==> exists r :: r in blocked * GPR && Ready(v1, left, r)
    requires blocked * FPR != {} ==> exists r :: r in blocked * FPR && Ready(v2, left, r)
    requires SameOutside(v1, v2, FPR) && LeftsOk(t, v1.cur, left) && ValidView(t, v1) && ValidView(t, v2)
    ensures SomeReady(v2, left)
  {
    hide ValidView, LeftsOk, SameOutside, Ready;
    if blocked * FPR == {} {
      assert forall q :: q in blocked ==> q in blocked * GPR || q in blocked * FPR;
      var r: Reg :| r in blocked * GPR && Ready(v1, left, r);
      ReadyInFile(t, v1, left, r);
      ReadyStays(t, v1, v2, FPR, left, r);
    }
  }

  /** Settled left operands are in no register but their own. */
  lemma OnlyAtHome(t: Trace, v: View, left: map<Reg, Ref>, r: Reg)
    requires r in ALL && r !in v.free && AllSettled(v, left) && ValidView(t, v)
    ensures forall q :: q in left && left[q] == v.cost[r] ==> q == r
  {
    hide SlotsOk;
    assert Owned(t, v, r);
  }

  /** Once all left operands are in place, those in other registers are invariants. */
  lemma InvariantGiven(t: Trace, v: View, v': View, left: map<Reg, Ref>, ref: Ref, r: Reg)
    requires Gave(v, v', ref, r) && r !in left && r in ALL && r !in v.free && r < |v.cost| && v.cost[r] == ref
    requires AllSettled(v, left) && ValidView(t, v)
    ensures AllSettled(v', left)
  {
    OnlyAtHome(t, v, left, r);
    hide ValidView;
    forall q | q in left
      ensures Settled(v', left, q)
    {
      assert Settled(v, left, q);
    }
  }

  lemma AssignedSettled(t: Trace, v: View, left: map<Reg, Ref>, r: Reg)
    requires r in left && left[r] < |v.rs| && r < |v.cost| && !v.rs[left[r]].InReg? && r in v.free
    requires AllSettled(v, left) && LeftsOk(t, v.cur, left)
    ensures AllSettled(Assigned(v, left[r], r), left)
  {
    forall q | q in left
      ensures Settled(Assigned(v, left[r], r), left, q)
    {
      assert Settled(v, left, q);
    }
  }
}
