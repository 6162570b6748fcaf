/** PHIs in the trace assembler (luajit/lj_asm.c): at the end of a loop body each right operand gets a
    register, or a spill slot when registers are short; copies between slots are made when the
    loop is repeated. */
module RegPhi {
  import opened RegAllocModel
  import opened RegShuffle

  // ---------------------------------------------------------------- the end of the body

  /** A PHI register has to hold its right operand at the end; it holds it already. */
  lemma RightPlaced(t: Trace, code: seq<MIns>, v: View, mod: set<Reg>, lefts: set<Ref>, r: Reg)
    requires r in ALL && r !in v.free && r !in mod && r < |v.cost| && AllTame(t, code, mod, v.sp, v.cur, lefts)
    requires ValidView(t, v) && Sound(t, code, v, None)
    ensures var v' := v.(ending := v.ending.(regs := v.ending.regs[r := v.cost[r]])); ValidView(t, v') && Sound(t, code, v', None)
  {
    var v' := v.(ending := v.ending.(regs := v.ending.regs[r := v.cost[r]]));
    assert Owned(t, v, r);
    SameButEnding(t, v, v');
    forall w: World, m: MState | Holds(t, w, v', None, m)
      ensures Ends(t, w, v'.ending, Run(code, w, m))
    {
      assert Holds(t, w, v, None, m);
      RegKept(t, code, mod, v.sp, v.cur, lefts, w, m, r);
    }
  }

  /** A PHI register gets a copy of its right operand, which is in register s. */
  lemma RightCopied(t: Trace, code: seq<MIns>, v: View, mod: set<Reg>, lefts: set<Ref>, r: Reg, s: Reg)
    requires r in v.free && r !in mod && s in ALL && s !in v.free && s < |v.cost| && AllTame(t, code, mod, v.sp, v.cur, lefts)
    requires ValidView(t, v) && Sound(t, code, v, None)
    ensures var v' := v.(ending := v.ending.(regs := v.ending.regs[r := v.cost[s]]));
            ValidView(t, v') && Sound(t, [Mov(r, s)] + code, v', None)
  {
    hide AllTame, SlotsOk, Placed, Value;
    var v' := v.(ending := v.ending.(regs := v.ending.regs[r := v.cost[s]]));
    assert Owned(t, v, s);
    SameButEnding(t, v, v');
    forall w: World, m: MState | Holds(t, w, v', None, m)
      ensures Ends(t, w, v'.ending, Run([Mov(r, s)] + code, w, m))
    {
      var m' := Step(Mov(r, s), w, |code| + 1, m);
      assert Holds(t, w, v, None, m');
      assert ([Mov(r, s)] + code)[1..] == code;
      RegKept(t, code, mod, v.sp, v.cur, lefts, w, m', r);
    }
  }

  /** A right operand has a slot, and has to be in it at the end. */
  lemma RightSpilled(t: Trace, code: seq<MIns>, v: View, mod: set<Reg>, ref: Ref)
    requires ref < |v.sp| && ref < v.cur && v.sp[ref] != 0 && AllTame(t, code, mod, v.sp, v.cur, {})
    requires ValidView(t, v) && Sound(t, code, v, None)
    ensures var v' := v.(ending := v.ending.(slots := v.ending.slots[ref := v.sp[ref]])); ValidView(t, v') && Sound(t, code, v', None)
  {
    hide AllTame, Value;
    var v' := v.(ending := v.ending.(slots := v.ending.slots[ref := v.sp[ref]]));
    SameButEnding(t, v, v');
    forall w: World, m: MState | Holds(t, w, v', None, m)
      ensures Ends(t, w, v'.ending, Run(code, w, m))
    {
      assert Holds(t, w, v, None, m);
      SlotKept(t, code, mod, v, {}, w, m, ref, Value(t, w, ref));
    }
  }

  lemma MoveTame(t: Trace, code: seq<MIns>, ins: MIns, mod: set<Reg>, sp: seq<nat>, cur: nat)
    requires AllTame(t, code, mod, sp, cur, {}) && !ins.SpStore? && Writes(ins) <= mod
    ensures AllTame(t, [ins] + code, mod, sp, cur, {})
  {
    assert ([ins] + code)[1..] == code;
  }

  lemma EndingTracked(t: Trace, code: seq<MIns>, mod: set<Reg>, sp: seq<nat>, cur: nat, lefts: set<Ref>, ending: Ending, ending': Ending)
    requires Tracks(t, code, code, mod, sp, cur, lefts, ending) && EndingKept(ending', sp)
    ensures Tracks(t, code, code, mod, sp, cur, lefts, ending')
  {}

  lemma SlotTracked(t: Trace, code: seq<MIns>, body: seq<MIns>, mod: set<Reg>, sp: seq<nat>, cur: nat, lefts: set<Ref>, ending: Ending, ref: Ref)
    requires Tracks(t, code, body, mod, sp, cur, lefts, ending) && ref < |sp| && sp[ref] != 0
    ensures Tracks(t, code, body, mod, sp, cur, lefts, ending.(slots := ending.slots[ref := sp[ref]]))
  {}

  // ---------------------------------------------------------------- who gets what

  /** Which references have registers and slots after the last PHIs have been set up, and how many
      registers of each file are PHI registers. */
  datatype Plan = Plan(regs: set<Ref>, slots: set<Ref>, gprs: nat, fprs: nat)

  function Taken(p: Plan, num: bool): nat { if num then p.fprs else p.gprs }

  function File(num: bool): set<Reg> { if num then FPR else GPR }

  predicate IsNumRef(t: Trace, ref: Ref) { ref < |t.ir| && IsNum(t.ir[ref]) }

  /** One more PHI.  Two registers have to be left for it to get one; otherwise it gets a slot, unless
      one of its operands has a register.  No operand may have a slot. */
  function PlanPhi(t: Trace, phi: Phi, p: Plan): Option<Plan> {
    var num := IsNumRef(t, phi.left);
    if phi.left in p.slots || phi.right in p.slots then None
    else if Taken(p, num) + 2 <= |File(num)| then
      Some(if num then p.(regs := p.regs + {phi.right}, fprs := p.fprs + 1)
           else p.(regs := p.regs + {phi.right}, gprs := p.gprs + 1))
    else if phi.left in p.regs || phi.right in p.regs then None
    else Some(p.(slots := p.slots + {phi.right}))
  }

  /** The PHIs are set up from the last one to the first. */
  function PlanOf(t: Trace, phis: seq<Phi>): Option<Plan> {
    if phis == [] then Some(Plan({}, {}, 0, 0))
    else
      var rest := PlanOf(t, phis[1..]);
      if rest.None? then None else PlanPhi(t, phis[0], rest.value)
  }

  // What the plan comes to, without its steps.

  /** How many of these PHIs are floating-point numbers, or not. */
  function CountOf(t: Trace, phis: seq<Phi>, num: bool): nat {
    if phis == [] then 0 else CountOf(t, phis[1..], num) + (if IsNumRef(t, phis[0].left) == num then 1 else 0)
  }

  /** The PHIs behind PHI k need all registers of its file but one. */
  predicate Short(t: Trace, phis: seq<Phi>, k: nat)
    requires k < |phis|
  {
    var num := IsNumRef(t, phis[k].left);
    CountOf(t, phis[k + 1..], num) + 1 >= |File(num)|
  }

  /** An operand of PHI k is the right operand of PHI l behind it, and one of the two is short of registers. */
  predicate Clash(t: Trace, phis: seq<Phi>, k: nat, l: nat) {
    && k < l < |phis| && (phis[l].right == phis[k].left || phis[l].right == phis[k].right)
    && (Short(t, phis, k) || Short(t, phis, l))
  }

  ghost predicate Clashing(t: Trace, phis: seq<Phi>) { exists k: nat, l: nat :: Clash(t, phis, k, l) }

  /** The loops that the assembler refuses. */
  ghost predicate Refused(t: Trace) { t.loop.Some? && Clashing(t, t.loop.value.phis) }

  /** ref is the right operand of a PHI that is short of registers, or of one that is not. */
  ghost predicate RightThat(t: Trace, phis: seq<Phi>, short: bool, ref: Ref) {
    exists k: nat :: k < |phis| && Short(t, phis, k) == short && phis[k].right == ref
  }

  ghost predicate PlanIs(t: Trace, phis: seq<Phi>, p: Plan) {
    && (forall ref :: ref in p.slots <==> RightThat(t, phis, true, ref))
    && (forall ref :: ref in p.regs <==> RightThat(t, phis, false, ref))
    && (forall num :: Taken(p, num) == if CountOf(t, phis, num) < |File(num)| then CountOf(t, phis, num) else |File(num)| - 1)
  }

  lemma ShortTail(t: Trace, phis: seq<Phi>, k: nat)
    requires phis != [] && k < |phis[1..]|
    ensures Short(t, phis, k + 1) == Short(t, phis[1..], k) && phis[1..][k] == phis[k + 1]
  {
    assert phis[1..][k + 1..] == phis[k + 2..];
  }

  lemma ClashTail(t: Trace, phis: seq<Phi>)
    requires phis != []
    ensures Clashing(t, phis) <==> Clashing(t, phis[1..]) || exists l: nat :: Clash(t, phis, 0, l)
  {
    hide Short;
    var rest := phis[1..];
    if Clashing(t, rest) {
      var k: nat, l: nat :| Clash(t, rest, k, l);
      ShortTail(t, phis, k);
      ShortTail(t, phis, l);
      assert Clash(t, phis, k + 1, l + 1);
    }
    if Clashing(t, phis) {
      var k: nat, l: nat :| Clash(t, phis, k, l);
      if k > 0 {
        ShortTail(t, phis, k - 1);
        ShortTail(t, phis, l - 1);
        assert Clash(t, rest, k - 1, l - 1);
      } else {
        assert Clash(t, phis, 0, l);
      }
    }
  }

  lemma RightThatTail(t: Trace, phis: seq<Phi>, short: bool, ref: Ref)
    requires phis != []
    ensures RightThat(t, phis, short, ref) <==>
              RightThat(t, phis[1..], short, ref) || (Short(t, phis, 0) == short && phis[0].right == ref)
  {
    hide Short;
    if RightThat(t, phis[1..], short, ref) {
      var k: nat :| k < |phis[1..]| && Short(t, phis[1..], k) == short && phis[1..][k].right == ref;
      ShortTail(t, phis, k);
      assert k + 1 < |phis| && Short(t, phis, k + 1) == short && phis[k + 1].right == ref;
    }
    if RightThat(t, phis, short, ref) {
      var k: nat :| k < |phis| && Short(t, phis, k) == short && phis[k].right == ref;
      if k > 0 { ShortTail(t, phis, k - 1); }
    }
  }

  /** A clash of the first PHI: with one behind it that gets a slot, or with one in a register if it gets none
      itself. */
  lemma FirstClash(t: Trace, phis: seq<Phi>, p: Plan)
    requires phis != [] && PlanIs(t, phis[1..], p)
    ensures (exists l: nat :: Clash(t, phis, 0, l)) <==>
              (phis[0].left in p.slots || phis[0].right in p.slots ||
               (Short(t, phis, 0) && (phis[0].left in p.regs || phis[0].right in p.regs)))
  {
    hide Short, RightThat;
    if l: nat :| Clash(t, phis, 0, l) {
      ShortTail(t, phis, l - 1);
      RightIs(t, phis[1..], l - 1);
    }
    if phis[0].left in p.slots { ClashWith(t, phis, true, phis[0].left); }
    if phis[0].right in p.slots { ClashWith(t, phis, true, phis[0].right); }
    if phis[0].left in p.regs && Short(t, phis, 0) { ClashWith(t, phis, false, phis[0].left); }
    if phis[0].right in p.regs && Short(t, phis, 0) { ClashWith(t, phis, false, phis[0].right); }
  }

  lemma RightIs(t: Trace, phis: seq<Phi>, k: nat)
    requires k < |phis|
    ensures RightThat(t, phis, Short(t, phis, k), phis[k].right)
  {}

  lemma ClashWith(t: Trace, phis: seq<Phi>, short: bool, ref: Ref)
    requires phis != [] && RightThat(t, phis[1..], short, ref) && (ref == phis[0].left || ref == phis[0].right)
    requires short || Short(t, phis, 0)
    ensures exists l: nat :: Clash(t, phis, 0, l)
  {
    hide Short;
    var k: nat :| k < |phis[1..]| && Short(t, phis[1..], k) == short && phis[1..][k].right == ref;
    ShortTail(t, phis, k);
    assert Clash(t, phis, 0, k + 1);
  }

  /** The plan refuses exactly the PHIs that clash; otherwise those that are short of registers get slots, and
      all others registers. */
  lemma {:induction false} PlanExact(t: Trace, phis: seq<Phi>)
    ensures PlanOf(t, phis).None? <==> Clashing(t, phis)
    ensures PlanOf(t, phis).Some? ==> PlanIs(t, phis, PlanOf(t, phis).value)
  {
    hide Short, Clashing, File, RightThat;
    if phis == [] {
      NoneRight(t);
    } else {
      PlanExact(t, phis[1..]);
      ClashTail(t, phis);
      if PlanOf(t, phis[1..]).Some? {
        PlanFirst(t, phis, PlanOf(t, phis[1..]).value);
      }
    }
  }

  lemma NoneRight(t: Trace)
    ensures !Clashing(t, []) && PlanIs(t, [], Plan({}, {}, 0, 0))
  {
    assert 1 in GPR && 32 in FPR;
  }

  lemma PlanFirst(t: Trace, phis: seq<Phi>, p: Plan)
    requires phis != [] && PlanIs(t, phis[1..], p)
    ensures PlanPhi(t, phis[0], p).None? <==> exists l: nat :: Clash(t, phis, 0, l)
    ensures PlanPhi(t, phis[0], p).Some? ==> PlanIs(t, phis, PlanPhi(t, phis[0], p).value)
  {
    hide Clash, RightThat, File;
    FirstClash(t, phis, p);
    var num := IsNumRef(t, phis[0].left);
    assert phis[0 + 1..] == phis[1..];
    assert Short(t, phis, 0) <==> Taken(p, num) + 2 > |File(num)|;
    forall short, ref
      ensures RightThat(t, phis, short, ref) <==>
                RightThat(t, phis[1..], short, ref) || (Short(t, phis, 0) == short && phis[0].right == ref)
    {
      RightThatTail(t, phis, short, ref);
    }
  }

  /** PHI k is short of registers: it gets a slot, which its right operand shares. */
  predicate GetsSlot(t: Trace, k: nat) { t.loop.Some? && k < |t.loop.value.phis| && Short(t, t.loop.value.phis, k) }

  /** No more PHIs than there are registers, and one more for each register file. */
  predicate FewPhis(t: Trace) {
    t.loop.Some? ==> forall num :: CountOf(t, t.loop.value.phis, num) < |File(num)|
  }

  lemma {:induction false} CountSuffix(t: Trace, phis: seq<Phi>, num: bool, k: nat)
    requires k < |phis|
    ensures CountOf(t, phis[k + 1..], num) + (if IsNumRef(t, phis[k].left) == num then 1 else 0) <= CountOf(t, phis, num)
  {
    if k > 0 {
      assert phis[1..][k - 1..] == phis[k..] && phis[1..][k..] == phis[k + 1..] && phis[1..][k - 1] == phis[k];
      CountSuffix(t, phis[1..], num, k - 1);
    }
  }

  /** Few PHIs all get registers. */
  lemma FewPhisFit(t: Trace)
    requires FewPhis(t)
    ensures !Refused(t) && forall k: nat :: !GetsSlot(t, k)
  {
    hide File, CountOf;
    forall k: nat
      ensures !GetsSlot(t, k)
    {
      if t.loop.Some? && k < |t.loop.value.phis| {
        CountSuffix(t, t.loop.value.phis, IsNumRef(t, t.loop.value.phis[k].left), k);
      }
    }
    if t.loop.Some? {
      PlanExact(t, t.loop.value.phis);
      forall k: nat, l: nat
        ensures !Clash(t, t.loop.value.phis, k, l)
      {
        assert !GetsSlot(t, k) && !GetsSlot(t, l);
      }
    }
  }

  lemma {:induction false} RefusedFrom(t: Trace, phis: seq<Phi>, k: nat)
    requires k <= |phis| && PlanOf(t, phis[k..]).None?
    ensures PlanOf(t, phis).None?
  {
    if k > 0 {
      assert phis[1..][k - 1..] == phis[k..];
      RefusedFrom(t, phis[1..], k - 1);
    }
  }

  lemma NotPlanned(t: Trace)
    requires t.loop.Some? && PlanOf(t, t.loop.value.phis).None?
    ensures Refused(t)
  {
    PlanExact(t, t.loop.value.phis);
  }

  lemma NoPhis(t: Trace)
    requires t.loop.None?
    ensures !Refused(t)
  {}

  ghost function InRegs(rs: seq<RState>): set<Ref> { set ref | 0 <= ref < |rs| && rs[ref].InReg? }

  /** Registers and slots are as planned. */
  ghost predicate Planned(t: Trace, phis: seq<Phi>, left: map<Reg, Ref>, rs: seq<RState>, sp: seq<nat>) {
    && PlanOf(t, phis).Some?
    && var p := PlanOf(t, phis).value;
       && p.regs == InRegs(rs) && p.slots == Spilled(sp)
       && Counted(p, left.Keys)
  }

  predicate Counted(p: Plan, keys: set<Reg>) { |keys * GPR| == p.gprs && |keys * FPR| == p.fprs }

  lemma OneMore(keys: set<Reg>, r: Reg, file: set<Reg>)
    requires r !in keys
    ensures |(keys + {r}) * file| == |keys * file| + (if r in file then 1 else 0)
  {
    if r in file {
      assert (keys + {r}) * file == keys * file + {r};
    } else {
      assert (keys + {r}) * file == keys * file;
    }
  }

  lemma ValuesGrow(left: map<Reg, Ref>, r: Reg, ref: Ref)
    requires r !in left
    ensures left[r := ref].Values == left.Values + {ref} && left[r := ref].Keys == left.Keys + {r}
  {
    var left' := left[r := ref];
    forall x | x in left.Values
      ensures x in left'.Values
    {
      var q :| q in left && left[q] == x;
      assert left'[q] == x;
    }
    assert left'[r] == ref;
  }

  lemma PlannedCounts(t: Trace, phis: seq<Phi>, left: map<Reg, Ref>, rs: seq<RState>, sp: seq<nat>, num: bool)
    requires Planned(t, phis, left, rs, sp)
    ensures PlanOf(t, phis).Some? && |File(num) - left.Keys| + Taken(PlanOf(t, phis).value, num) == |File(num)|
    ensures PlanOf(t, phis).value.regs == InRegs(rs) && PlanOf(t, phis).value.slots == Spilled(sp)
  {
    SplitSize(File(num), left.Keys);
  }

  lemma PlanPhiReg(t: Trace, phi: Phi, p: Plan)
    requires phi.left !in p.slots && phi.right !in p.slots && Taken(p, IsNumRef(t, phi.left)) + 2 <= |File(IsNumRef(t, phi.left))|
    ensures var p' := PlanPhi(t, phi, p);
            && p'.Some? && p'.value.regs == p.regs + {phi.right} && p'.value.slots == p.slots
            && p'.value.gprs == p.gprs + (if IsNumRef(t, phi.left) then 0 else 1)
            && p'.value.fprs == p.fprs + (if IsNumRef(t, phi.left) then 1 else 0)
  {}

  lemma PlanPhiSlot(t: Trace, phi: Phi, p: Plan)
    requires phi.left !in p.slots && phi.right !in p.slots && phi.left !in p.regs && phi.right !in p.regs
    requires Taken(p, IsNumRef(t, phi.left)) + 2 > |File(IsNumRef(t, phi.left))|
    ensures PlanPhi(t, phi, p) == Some(p.(slots := p.slots + {phi.right}))
  {}

  lemma PlanPhiNot(t: Trace, phi: Phi, p: Plan)
    requires phi.left in p.slots || phi.right in p.slots ||
             (Taken(p, IsNumRef(t, phi.left)) + 2 > |File(IsNumRef(t, phi.left))| && (phi.left in p.regs || phi.right in p.regs))
    ensures PlanPhi(t, phi, p) == None
  {}

  lemma FileOf(t: Trace, ref: Ref)
    requires ref < |t.ir|
    ensures File(IsNum(t.ir[ref])) == ClassOf(t.ir[ref]) && IsNumRef(t, ref) == IsNum(t.ir[ref])
  {}

  /** A PHI has got register r. */
  lemma PlannedReg(t: Trace, phis: seq<Phi>, left: map<Reg, Ref>, rs: seq<RState>, sp: seq<nat>, r: Reg, rs': seq<RState>)
    requires phis != [] && phis[0].left < |t.ir| && Planned(t, phis[1..], left, rs, sp)
    requires r in ALL && r !in left && r in ClassOf(t.ir[phis[0].left])
    requires phis[0].left !in Spilled(sp) && phis[0].right !in Spilled(sp) && InRegs(rs') == InRegs(rs) + {phis[0].right}
    requires |File(IsNum(t.ir[phis[0].left])) - left.Keys| >= 2
    ensures Planned(t, phis, left[r := phis[0].left], rs', sp)
  {
    hide InRegs, Spilled, PlanPhi, Counted, File, Taken, ClassOf;
    PlannedCounts(t, phis[1..], left, rs, sp, IsNum(t.ir[phis[0].left]));
    PlanPhiReg(t, phis[0], PlanOf(t, phis[1..]).value);
    ValuesGrow(left, r, phis[0].left);
    FileOf(t, phis[0].left);
    OneMoreReg(left.Keys, r, IsNum(t.ir[phis[0].left]), PlanOf(t, phis[1..]).value, PlanPhi(t, phis[0], PlanOf(t, phis[1..]).value).value);
  }

  lemma SameCounts(p: Plan, p': Plan, keys: set<Reg>)
    requires Counted(p, keys) && p'.gprs == p.gprs && p'.fprs == p.fprs
    ensures Counted(p', keys)
  {}

  lemma OneMoreReg(keys: set<Reg>, r: Reg, num: bool, p: Plan, p': Plan)
    requires r !in keys && r in File(num) && Counted(p, keys)
    requires p'.gprs == p.gprs + (if num then 0 else 1) && p'.fprs == p.fprs + (if num then 1 else 0)
    ensures Counted(p', keys + {r})
  {
    FilesApart(r);
    OneMore(keys, r, GPR);
    OneMore(keys, r, FPR);
  }

  lemma FilesApart(r: Reg)
    ensures r in GPR ==> r !in FPR
  {}

  /** A PHI has got a slot, which its right operand shares. */
  lemma PlannedSlot(t: Trace, phis: seq<Phi>, left: map<Reg, Ref>, rs: seq<RState>, sp: seq<nat>, sp': seq<nat>)
    requires phis != [] && phis[0].left < |t.ir| && Planned(t, phis[1..], left, rs, sp)
    requires phis[0].left !in Spilled(sp) && phis[0].right !in Spilled(sp) && Spilled(sp') == Spilled(sp) + {phis[0].right}
    requires phis[0].left !in InRegs(rs) && phis[0].right !in InRegs(rs)
    requires |File(IsNum(t.ir[phis[0].left])) - left.Keys| < 2
    ensures Planned(t, phis, left, rs, sp')
  {
    hide InRegs, Spilled, PlanPhi, Counted, File, Taken;
    var num, p := IsNum(t.ir[phis[0].left]), PlanOf(t, phis[1..]).value;
    PlannedCounts(t, phis[1..], left, rs, sp, num);
    SlotPlan(t, phis, p, |File(num) - left.Keys|);
    SameCounts(p, p.(slots := p.slots + {phis[0].right}), left.Keys);
  }

  lemma SlotPlan(t: Trace, phis: seq<Phi>, p: Plan, few: nat)
    requires phis != [] && phis[0].left < |t.ir| && PlanOf(t, phis[1..]) == Some(p)
    requires phis[0].left !in p.slots && phis[0].right !in p.slots && phis[0].left !in p.regs && phis[0].right !in p.regs
    requires few < 2 && few + Taken(p, IsNum(t.ir[phis[0].left])) == |File(IsNum(t.ir[phis[0].left]))|
    ensures PlanOf(t, phis) == Some(p.(slots := p.slots + {phis[0].right}))
  {
    hide PlanPhi, File, Taken;
    PlanPhiSlot(t, phis[0], p);
  }

  /** A PHI is to have a slot: registers are short, and its operands have neither registers nor slots. */
  ghost predicate SlotDue(t: Trace, op: Phi, left: map<Reg, Ref>, rs: seq<RState>, sp: seq<nat>) {
    && op.left < |t.ir| && op.right < |t.ir| == |rs| == |sp| && sp[op.right] == 0
    && op.left !in Spilled(sp) && op.right !in Spilled(sp) && op.left !in InRegs(rs) && op.right !in InRegs(rs)
    && |File(IsNum(t.ir[op.left])) - left.Keys| < 2
  }

  lemma SlotIsDue(t: Trace, k: nat, left: map<Reg, Ref>, rs: seq<RState>, sp: seq<nat>)
    requires t.loop.Some? && k < |t.loop.value.phis|
    requires var op := t.loop.value.phis[k];
             && op.left < |t.ir| && op.right < |t.ir| == |rs| == |sp| && sp[op.left] == 0 && sp[op.right] == 0
             && !rs[op.left].InReg? && !rs[op.right].InReg? && |ClassOf(t.ir[op.left]) - left.Keys| < 2
    ensures SlotDue(t, t.loop.value.phis[k], left, rs, sp)
  {}

  /** A PHI that the plan refuses. */
  lemma PhiRefused(t: Trace, k: nat, left: map<Reg, Ref>, rs: seq<RState>, sp: seq<nat>)
    requires t.loop.Some? && k < |t.loop.value.phis| && Planned(t, t.loop.value.phis[k + 1..], left, rs, sp)
    requires var op := t.loop.value.phis[k];
             && op.left < |t.ir| && op.right < |t.ir| == |rs| == |sp|
             && (sp[op.left] != 0 || sp[op.right] != 0 ||
                 (|ClassOf(t.ir[op.left]) - left.Keys| < 2 && (rs[op.left].InReg? || rs[op.right].InReg?)))
    ensures Refused(t)
  {
    hide Planned;
    var phis := t.loop.value.phis[k..];
    assert phis[1..] == t.loop.value.phis[k + 1..] && phis[0] == t.loop.value.phis[k];
    FileOf(t, phis[0].left);
    PlannedNot(t, phis, left, rs, sp);
    RefusedFrom(t, t.loop.value.phis, k);
    NotPlanned(t);
  }

  /** A register for the right operand is as planned. */
  lemma RegGiven(t: Trace, k: nat, left: map<Reg, Ref>, rs: seq<RState>, sp: seq<nat>, r: Reg, rs': seq<RState>)
    requires t.loop.Some? && k < |t.loop.value.phis| && Planned(t, t.loop.value.phis[k + 1..], left, rs, sp)
    requires var op := t.loop.value.phis[k];
             && op.left < |t.ir| && op.right < |t.ir| == |sp| && sp[op.left] == 0 && sp[op.right] == 0
             && r in ALL && r !in left && r in ClassOf(t.ir[op.left]) && |ClassOf(t.ir[op.left]) - left.Keys| >= 2
             && InRegs(rs') == InRegs(rs) + {op.right}
    ensures Planned(t, t.loop.value.phis[k..], left[r := t.loop.value.phis[k].left], rs', sp)
    ensures t.loop.value.phis[k].left !in Spilled(sp)
  {
    hide Planned, InRegs;
    var phis := t.loop.value.phis[k..];
    assert phis[1..] == t.loop.value.phis[k + 1..] && phis[0] == t.loop.value.phis[k];
    FileOf(t, phis[0].left);
    PlannedReg(t, phis, left, rs, sp, r, rs');
  }

  lemma SlotDueFacts(t: Trace, k: nat, left: map<Reg, Ref>, rs: seq<RState>, sp: seq<nat>)
    requires t.loop.Some? && k < |t.loop.value.phis| && SlotDue(t, t.loop.value.phis[k], left, rs, sp)
    ensures var op := t.loop.value.phis[k]; op.right < |sp| == |t.ir| && sp[op.right] == 0
    ensures t.loop.value.phis[k].left !in Spilled(sp) && t.loop.value.phis[k].right !in Spilled(sp)
  {}

  /** A slot for the right operand is as planned. */
  lemma SlotGiven(t: Trace, k: nat, left: map<Reg, Ref>, rs: seq<RState>, sp: seq<nat>, s: nat, code: seq<MIns>, mod: set<Reg>, cur: nat)
    requires t.loop.Some? && k < |t.loop.value.phis| && SlotDue(t, t.loop.value.phis[k], left, rs, sp) && s != 0
    requires Planned(t, t.loop.value.phis[k + 1..], left, rs, sp) && AllTame(t, code, mod, sp, cur, {})
    ensures var right := t.loop.value.phis[k].right;
            && Planned(t, t.loop.value.phis[k..], left, rs, sp[right := s]) && AllTame(t, code, mod, sp[right := s], cur, {})
            && Spilled(sp[right := s]) == Spilled(sp) + {right}
  {
    hide Planned, InRegs, Spilled, AllTame, File;
    var phis, right := t.loop.value.phis[k..], t.loop.value.phis[k].right;
    assert phis[1..] == t.loop.value.phis[k + 1..] && phis[0] == t.loop.value.phis[k];
    SpilledAgain(sp, right, s);
    PlannedSlot(t, phis, left, rs, sp, sp[right := s]);
    TameGrow(t, code, mod, sp, cur, mod, sp[right := s], cur, {}, {});
  }

  /** The plan gives the PHI its slot. */
  lemma SlotIsPlanned(t: Trace, k: nat, left: map<Reg, Ref>, rs: seq<RState>, sp: seq<nat>)
    requires t.loop.Some? && k < |t.loop.value.phis| && SlotDue(t, t.loop.value.phis[k], left, rs, sp)
    requires Planned(t, t.loop.value.phis[k + 1..], left, rs, sp)
    ensures GetsSlot(t, k)
  {
    hide InRegs, Spilled, File, RightThat;
    var num := IsNumRef(t, t.loop.value.phis[k].left);
    PlannedCounts(t, t.loop.value.phis[k + 1..], left, rs, sp, num);
    PlanExact(t, t.loop.value.phis[k + 1..]);
  }

  /** ref is the left operand of a PHI that gets a slot. */
  ghost predicate SlotLeft(t: Trace, ref: Ref) {
    t.loop.Some? && exists k: nat :: GetsSlot(t, k) && t.loop.value.phis[k].left == ref
  }

  /** The PHIs that have got slots are those of the plan. */
  lemma SlotsSeen(t: Trace, left: map<Reg, Ref>, slot: map<Ref, nat>, ending: Ending, rs: seq<RState>, sp: seq<nat>)
    requires WellFormed(t) && t.loop.Some? && Planned(t, t.loop.value.phis, left, rs, sp) && ending.slots.Keys == Spilled(sp)
    requires PhisPlaced(t.loop.value.phis, left, slot, ending)
    ensures !Refused(t) && forall ref :: ref in slot ==> SlotLeft(t, ref)
  {
    hide Spilled, WellFormed, PlanOf, PlanIs, Clashing, PhisPlaced;
    PlanExact(t, t.loop.value.phis);
    forall ref | ref in slot
      ensures SlotLeft(t, ref)
    {
      ApartLefts(t);
      var k := SlotPhi(t.loop.value.phis, left, slot, ending, ref);
      OwnSlot(t, t.loop.value.phis, k);
      assert GetsSlot(t, k);
    }
  }

  /** The PHI of a left operand that has got a slot. */
  lemma SlotPhi(phis: seq<Phi>, left: map<Reg, Ref>, slot: map<Ref, nat>, ending: Ending, ref: Ref) returns (k: nat)
    requires PhisPlaced(phis, left, slot, ending) && ref in slot && LeftsApart(phis)
    ensures k < |phis| && phis[k].left == ref && phis[k].right in ending.slots.Keys
  {
    hide Ordered, RightsOk;
    assert ref in LeftsOf(phis);
    var p :| p in phis && p.left == ref;
    k :| k < |phis| && phis[k] == p;
    RightAt(phis, k);
  }

  /** A right operand that has a slot has got it for its own PHI. */
  lemma OwnSlot(t: Trace, phis: seq<Phi>, k: nat)
    requires k < |phis| && PlanOf(t, phis).Some? && phis[k].right in PlanOf(t, phis).value.slots
    ensures Short(t, phis, k)
  {
    hide Short;
    PlanExact(t, phis);
    var l: nat :| l < |phis| && Short(t, phis, l) && phis[l].right == phis[k].right;
    assert k < l ==> Clash(t, phis, k, l);
    assert l < k ==> Clash(t, phis, l, k);
  }

  lemma ApartLefts(t: Trace)
    requires WellFormed(t) && t.loop.Some?
    ensures LeftsApart(t.loop.value.phis)
  {}

  lemma NonePlaced(t: Trace, rs: seq<RState>, sp: seq<nat>)
    requires t.loop.Some? && (forall s :: s in sp ==> s == 0) && (forall h :: h in rs ==> !h.InReg?)
    ensures PhisPlaced(t.loop.value.phis[|t.loop.value.phis|..], map[], map[], Ending(map[], map[]))
    ensures Planned(t, t.loop.value.phis[|t.loop.value.phis|..], map[], rs, sp) && Spilled(sp) == {}
  {
    assert {} * GPR == {} && {} * FPR == {};
    forall ref | 0 <= ref < |sp|
      ensures sp[ref] == 0
    {
      assert sp[ref] in sp;
    }
    forall ref | 0 <= ref < |rs|
      ensures !rs[ref].InReg?
    {
      assert rs[ref] in rs;
    }
  }

  lemma HintPlanned(t: Trace, phis: seq<Phi>, left: map<Reg, Ref>, rs: seq<RState>, sp: seq<nat>, ref: Ref, r: Reg)
    requires Planned(t, phis, left, rs, sp) && ref < |rs| && !rs[ref].InReg?
    ensures Planned(t, phis, left, rs[ref := Hint(r)], sp)
  {
    assert InRegs(rs[ref := Hint(r)]) == InRegs(rs);
  }

  lemma SpilledAgain(sp: seq<nat>, ref: Ref, s: nat)
    requires ref < |sp| && s != 0
    ensures Spilled(sp[ref := s]) == Spilled(sp) + {ref}
  {}

  /** A PHI that gets neither. */
  lemma PlannedNot(t: Trace, phis: seq<Phi>, left: map<Reg, Ref>, rs: seq<RState>, sp: seq<nat>)
    requires phis != [] && phis[0].left < |t.ir| && Planned(t, phis[1..], left, rs, sp)
    requires phis[0].left in Spilled(sp) || phis[0].right in Spilled(sp) ||
             (|File(IsNum(t.ir[phis[0].left])) - left.Keys| < 2 && (phis[0].left in InRegs(rs) || phis[0].right in InRegs(rs)))
    ensures PlanOf(t, phis).None?
  {
    hide InRegs, Spilled, PlanPhi, Counted, File, Taken;
    PlannedCounts(t, phis[1..], left, rs, sp, IsNum(t.ir[phis[0].left]));
    PlanPhiNot(t, phis[0], PlanOf(t, phis[1..]).value);
  }

  /** The right operand of the PHI of ref, or ref itself if it is no left operand. */
  function RightOf(phis: seq<Phi>, ref: Ref): Ref {
    if phis == [] then ref else if phis[0].left == ref then phis[0].right else RightOf(phis[1..], ref)
  }

  lemma {:induction false} RightOfOk(t: Trace, phis: seq<Phi>, start: Ref, ref: Ref)
    requires ref < |t.ir| && forall k :: 0 <= k < |phis| ==> PhiOk(t, phis[k], start)
    ensures RightOf(phis, ref) < |t.ir|
    ensures (forall k :: 0 <= k < |phis| ==> phis[k].left != ref) ==> RightOf(phis, ref) == ref
  {
    if phis != [] {
      assert PhiOk(t, phis[0], start);
      RightOfOk(t, phis[1..], start, ref);
    }
  }

  // ---------------------------------------------------------------- left operands

  function LeftsOf(phis: seq<Phi>): set<Ref> { set p | p in phis :: p.left }

  predicate RightsOk(phis: seq<Phi>, left: map<Reg, Ref>, regs: map<Reg, Ref>) {
    left.Keys == regs.Keys && forall r :: r in left ==> regs[r] == RightOf(phis, left[r])
  }

  /** The slot of a PHI is that of its right operand. */
  predicate SlotsRight(phis: seq<Phi>, slot: map<Ref, nat>, slots: map<Ref, nat>) {
    forall ref :: ref in slot ==> RightOf(phis, ref) in slots && slots[RightOf(phis, ref)] == slot[ref]
  }

  /** No left operand shares the slot of a later PHI. */
  predicate Ordered(phis: seq<Phi>, slot: map<Ref, nat>) {
    forall a, b :: 0 <= a < b < |phis| && phis[b].left in slot ==> phis[a].left != phis[b].right
  }

  /** The last PHIs of the loop have registers or slots. */
  ghost predicate PhisPlaced(phis: seq<Phi>, left: map<Reg, Ref>, slot: map<Ref, nat>, ending: Ending) {
    && left.Values + slot.Keys == LeftsOf(phis) && left.Values !! slot.Keys
    && RightsOk(phis, left, ending.regs) && SlotsRight(phis, slot, ending.slots) && Ordered(phis, slot)
  }

  lemma LeftsFacts(phis: seq<Phi>, left: map<Reg, Ref>, slot: map<Ref, nat>, ending: Ending)
    requires PhisPlaced(phis, left, slot, ending)
    ensures left.Values + slot.Keys == LeftsOf(phis) && left.Values !! slot.Keys && left.Keys == ending.regs.Keys
  {}

  lemma LeftsGrow(phis: seq<Phi>)
    requires phis != []
    ensures LeftsOf(phis) == LeftsOf(phis[1..]) + {phis[0].left}
  {}

  lemma OrderedGrows(phis: seq<Phi>, slot: map<Ref, nat>, slot': map<Ref, nat>, slots: map<Ref, nat>)
    requires phis != [] && Ordered(phis[1..], slot) && slot'.Keys <= slot.Keys + {phis[0].left}
    requires phis[0].left !in LeftsOf(phis[1..]) && SlotsRight(phis[1..], slot, slots) && phis[0].left !in slots
    requires LeftsApart(phis)
    ensures Ordered(phis, slot')
  {
    forall a, b | 0 <= a < b < |phis| && phis[b].left in slot'
      ensures phis[a].left != phis[b].right
    {
      assert phis[b] == phis[1..][b - 1] && phis[b] in phis[1..];
      assert phis[b].left in slot;
      RightAt(phis, b);
      if a > 0 { assert phis[a] == phis[1..][a - 1]; }
      assert RightOf(phis[1..], phis[b].left) == RightOf(phis, phis[b].left);
    }
  }

  lemma {:induction false} RightAt(phis: seq<Phi>, k: nat)
    requires k < |phis| && LeftsApart(phis)
    ensures RightOf(phis, phis[k].left) == phis[k].right
  {
    if k > 0 {
      assert phis[0].left != phis[k].left;
      forall a, b | 0 <= a < b < |phis[1..]|
        ensures phis[1..][a].left != phis[1..][b].left
      {
        assert phis[a + 1].left != phis[b + 1].left;
      }
      RightAt(phis[1..], k - 1);
    }
  }

  /** Another PHI does not change the right operands of those behind it. */
  lemma RightsKept(phis: seq<Phi>, left: map<Reg, Ref>, slot: map<Ref, nat>, ending: Ending)
    requires phis != [] && phis[0].left !in LeftsOf(phis[1..]) && PhisPlaced(phis[1..], left, slot, ending)
    ensures RightsOk(phis, left, ending.regs) && SlotsRight(phis, slot, ending.slots)
    ensures phis[0].left !in left.Values && phis[0].left !in slot
  {
    forall r | r in left
      ensures ending.regs[r] == RightOf(phis, left[r])
    {
      assert left[r] in left.Values;
    }
    forall ref | ref in slot
      ensures RightOf(phis, ref) == RightOf(phis[1..], ref)
    {
      assert ref in slot.Keys;
    }
  }

  lemma PlacedInReg(phis: seq<Phi>, left: map<Reg, Ref>, slot: map<Ref, nat>, ending: Ending, r: Reg)
    requires phis != [] && r !in left && phis[0].left !in LeftsOf(phis[1..]) && phis[0].left !in ending.slots
    requires LeftsApart(phis)
    requires PhisPlaced(phis[1..], left, slot, ending)
    ensures PhisPlaced(phis, left[r := phis[0].left], slot, ending.(regs := ending.regs[r := phis[0].right]))
  {
    LeftsGrow(phis);
    ValuesGrow(left, r, phis[0].left);
    RightsKept(phis, left, slot, ending);
    OrderedGrows(phis, slot, slot, ending.slots);
    hide LeftsOf, Ordered;
  }

  lemma PlacedInSlot(phis: seq<Phi>, left: map<Reg, Ref>, slot: map<Ref, nat>, ending: Ending, s: nat)
    requires phis != [] && phis[0].left !in LeftsOf(phis[1..]) && phis[0].left !in ending.slots && phis[0].right !in ending.slots
    requires LeftsApart(phis)
    requires PhisPlaced(phis[1..], left, slot, ending)
    ensures PhisPlaced(phis, left, slot[phis[0].left := s], ending.(slots := ending.slots[phis[0].right := s]))
  {
    LeftsGrow(phis);
    RightsKept(phis, left, slot, ending);
    var slot' := slot[phis[0].left := s];
    assert slot'.Keys == slot.Keys + {phis[0].left};
    OrderedGrows(phis, slot, slot', ending.slots);
    hide LeftsOf, Ordered;
  }

  lemma LeftsGrown(t: Trace, start: Ref, left: map<Reg, Ref>, ref: Ref, r: Reg, spare: Reg)
    requires LeftsOk(t, start, left) && t.first <= ref < start && !t.ir[ref].XStore? && ref !in left.Values
    requires r in ClassOf(t.ir[ref]) && r !in left && spare in ClassOf(t.ir[ref]) && spare !in left && spare != r
    ensures LeftsOk(t, start, left[r := ref])
  {
    var left' := left[r := ref];
    assert forall q :: q in left ==> left[q] in left.Values;
    assert left'.Keys == left.Keys + {r};
    if r in GPR {
      assert spare in GPR - left'.Keys && FPR - left'.Keys == FPR - left.Keys;
    } else {
      assert spare in FPR - left'.Keys && GPR - left'.Keys == GPR - left.Keys;
    }
  }

  lemma SplitSize(s: set<Reg>, t: set<Reg>)
    ensures |s| == |s - t| + |t * s|
    ensures s - t != {} ==> |t * s| < |s|
  {
    assert s == (s - t) + t * s;
  }

  /** A set of two or more has a second element. */
  lemma Another(s: set<Reg>, r: Reg) returns (q: Reg)
    requires |s| >= 2
    ensures q in s && q != r
  {
    if s - {r} == {} {
      assert s <= {r};
      SubsetSmaller(s, {r});
    }
    q :| q in s - {r};
  }

  /** The PHIs of a loop have different left operands. */
  lemma NewLeft(t: Trace, k: nat)
    requires WellFormed(t) && t.loop.Some? && k < |t.loop.value.phis|
    ensures t.loop.value.phis[k].left !in LeftsOf(t.loop.value.phis[k + 1..])
    ensures LeftsApart(t.loop.value.phis[k..])
    ensures PhiOk(t, t.loop.value.phis[k], t.loop.value.start)
  {
    var phis := t.loop.value.phis;
    forall p | p in phis[k + 1..]
      ensures p.left != phis[k].left
    {
      var j :| 0 <= j < |phis[k + 1..]| && phis[k + 1..][j] == p;
      assert p == phis[k + 1 + j];
    }
  }

  // ---------------------------------------------------------------- copies between slots

  /** The PHI has a slot, and so has its left operand, which has to be brought in step. */
  predicate Copied(t: Trace, sp: seq<nat>, slot: map<Ref, nat>, num: bool, phi: Phi) {
    phi.left < |t.ir| && phi.left < |sp| && IsNum(t.ir[phi.left]) == num && phi.left in slot && sp[phi.left] != 0
  }

  function CopyOf(t: Trace, sp: seq<nat>, slot: map<Ref, nat>, num: bool, r: Reg, phi: Phi): seq<MIns> {
    if Copied(t, sp, slot, num, phi) then [SpLoad(r, slot[phi.left], num), SpStore(r, sp[phi.left], num)] else []
  }

  /** From the first PHI to the last. */
  function SlotCopies(t: Trace, sp: seq<nat>, slot: map<Ref, nat>, num: bool, r: Reg, phis: seq<Phi>): seq<MIns> {
    if phis == [] then [] else CopyOf(t, sp, slot, num, r, phis[0]) + SlotCopies(t, sp, slot, num, r, phis[1..])
  }

  /** A register that is in use is saved around the copies. */
  function Guarded(free: set<Reg>, r: Reg, copies: seq<MIns>): seq<MIns> {
    if copies == [] || r in free then copies else [SpStore(r, SPS_TMP, true)] + (copies + [SpLoad(r, SPS_TMP, true)])
  }

  /** All copies: floating-point numbers through register r, then integers. */
  function AllCopies(t: Trace, free: set<Reg>, sp: seq<nat>, slot: map<Ref, nat>, r: Reg, phis: seq<Phi>): seq<MIns> {
    Guarded(free, r, SlotCopies(t, sp, slot, true, r, phis)) + SlotCopies(t, sp, slot, false, RID_TMP, phis)
  }

  /** What copies leave alone: output, fixed slots, and registers but the one that they go through. */
  predicate Around(m: MState, m': MState, r: Reg) {
    && Sane(m) && Sane(m') && m'.out == m.out && m'.slots[..SPS_FIRST] == m.slots[..SPS_FIRST]
    && forall q :: 0 <= q < NREGS && q != r ==> m'.regs[q] == m.regs[q]
  }

  /** A slot holds the same words. */
  predicate SameSlot(m: MState, m': MState, s: nat, wide: bool) {
    && Sane(m) && Sane(m') && (s < NSLOTS ==> m'.slots[s] == m.slots[s])
    && (wide && s + 1 < NSLOTS ==> m'.slots[s + 1] == m.slots[s + 1])
  }

  /** Of all slots in use, only that of reference dst changes. */
  ghost predicate OnlySlot(t: Trace, sp: seq<nat>, dst: Ref, m: MState, m': MState)
    requires |sp| == |t.ir|
  {
    forall ref :: 0 <= ref < |sp| && ref != dst && sp[ref] != 0 ==> SameSlot(m, m', sp[ref], IsNum(t.ir[ref]))
  }

  /** A load and a save: the value goes from one slot to another, and no third slot changes. */
  lemma CopyStep(t: Trace, sp: seq<nat>, even: nat, odd: nat, src: Ref, dst: Ref, r: Reg, w: World, at: nat, at': nat, m: MState, x: Val)
    requires Sane(m) && RID_ZERO < r < NREGS && src < |t.ir| && dst < |t.ir| && |sp| == |t.ir| && IsNum(t.ir[src]) == IsNum(t.ir[dst])
    requires sp[src] != 0 && sp[dst] != 0 && SlotHolds(m, sp[src], IsNum(t.ir[src]), x) && SlotsOk(t, sp, even, odd)
    ensures var m' := Step(SpStore(r, sp[dst], IsNum(t.ir[dst])), w, at', Step(SpLoad(r, sp[src], IsNum(t.ir[src])), w, at, m));
            && Around(m, m', r) && SlotHolds(m', sp[dst], IsNum(t.ir[dst]), x)
            && OnlySlot(t, sp, dst, m, m')
  {
    var m1 := Step(SpLoad(r, sp[src], IsNum(t.ir[src])), w, at, m);
    var m' := Step(SpStore(r, sp[dst], IsNum(t.ir[dst])), w, at', m1);
    assert m1 == Set(m, r, x);
    assert SlotOk(t, sp, even, odd, dst);
    forall ref | 0 <= ref < |sp| && ref != dst && sp[ref] != 0
      ensures SameSlot(m, m', sp[ref], IsNum(t.ir[ref]))
    {
      assert SlotOk(t, sp, even, odd, ref) && SlotsApart(t, sp);
      assert if ref < dst then sp[ref] != sp[dst] else sp[dst] != sp[ref];
    }
  }

  /** Every PHI that is copied has its right operand's value in its slot. */
  ghost predicate Sources(t: Trace, w: World, sp: seq<nat>, slot: map<Ref, nat>, num: bool, phis: seq<Phi>, m: MState)
    requires WellFormed(t)
  {
    Sane(m) && forall k :: 0 <= k < |phis| && Copied(t, sp, slot, num, phis[k]) ==>
      && phis[k].right < |t.ir| == |sp| && IsNum(t.ir[phis[k].right]) == num
      && slot[phis[k].left] == sp[phis[k].right] != 0
      && SlotHolds(m, sp[phis[k].right], num, Value(t, w, phis[k].right))
  }

  /** All left operands that are copied have the values of their right operands in their slots. */
  ghost predicate Targets(t: Trace, w: World, sp: seq<nat>, slot: map<Ref, nat>, num: bool, phis: seq<Phi>, m: MState)
    requires WellFormed(t)
  {
    Sane(m) && forall k :: 0 <= k < |phis| && Copied(t, sp, slot, num, phis[k]) ==>
      phis[k].right < |t.ir| && SlotHolds(m, sp[phis[k].left], num, Value(t, w, phis[k].right))
  }

  /** No slot changes but those of left operands that are copied. */
  ghost predicate OthersSame(t: Trace, sp: seq<nat>, slot: map<Ref, nat>, num: bool, phis: seq<Phi>, m: MState, m': MState)
    requires |sp| == |t.ir|
  {
    forall ref :: 0 <= ref < |sp| && sp[ref] != 0 && !CopiesTo(t, sp, slot, num, phis, ref) ==> SameSlot(m, m', sp[ref], IsNum(t.ir[ref]))
  }

  ghost predicate CopiesTo(t: Trace, sp: seq<nat>, slot: map<Ref, nat>, num: bool, phis: seq<Phi>, ref: Ref) {
    exists k :: 0 <= k < |phis| && Copied(t, sp, slot, num, phis[k]) && phis[k].left == ref
  }

  predicate LeftsApart(phis: seq<Phi>) { forall a, b :: 0 <= a < b < |phis| ==> phis[a].left != phis[b].left }

  lemma TailApart(phis: seq<Phi>, slot: map<Ref, nat>)
    requires phis != [] && LeftsApart(phis) && Ordered(phis, slot)
    ensures LeftsApart(phis[1..]) && Ordered(phis[1..], slot)
    ensures forall k :: 0 <= k < |phis[1..]| ==> phis[1..][k].left != phis[0].left
    ensures forall k :: 0 <= k < |phis[1..]| && phis[1..][k].left in slot ==> phis[1..][k].right != phis[0].left
  {
    forall a, b | 0 <= a < b < |phis[1..]|
      ensures phis[1..][a].left != phis[1..][b].left
      ensures phis[1..][b].left in slot ==> phis[1..][a].left != phis[1..][b].right
    {
      assert phis[a + 1].left != phis[b + 1].left;
      assert phis[b + 1].left in slot ==> phis[a + 1].left != phis[b + 1].right;
    }
    forall k | 0 <= k < |phis[1..]|
      ensures phis[1..][k].left != phis[0].left
      ensures phis[1..][k].left in slot ==> phis[1..][k].right != phis[0].left
    {
      assert phis[0].left != phis[k + 1].left;
      assert phis[k + 1].left in slot ==> phis[0].left != phis[k + 1].right;
    }
  }

  /** The first copy overwrites no slot that a later one reads. */
  lemma SourcesStay(t: Trace, w: World, sp: seq<nat>, slot: map<Ref, nat>, num: bool, phis: seq<Phi>, m: MState, m': MState)
    requires WellFormed(t) && |sp| == |t.ir| && phis != [] && LeftsApart(phis) && Ordered(phis, slot) && Sources(t, w, sp, slot, num, phis, m)
    requires Sane(m')
    requires OnlySlot(t, sp, phis[0].left, m, m')
    ensures Sources(t, w, sp, slot, num, phis[1..], m')
  {
    hide Value;
    TailApart(phis, slot);
    forall k | 0 <= k < |phis[1..]| && Copied(t, sp, slot, num, phis[1..][k])
      ensures phis[1..][k].right < |t.ir| == |sp| && IsNum(t.ir[phis[1..][k].right]) == num
      ensures slot[phis[1..][k].left] == sp[phis[1..][k].right] != 0
      ensures SlotHolds(m', sp[phis[1..][k].right], num, Value(t, w, phis[1..][k].right))
    {
      assert phis[1..][k] == phis[k + 1];
      assert SameSlot(m, m', sp[phis[k + 1].right], num);
    }
  }

  /** The copies, in front of any code, bring the slots of left operands in step. */
  lemma {:induction false} CopiesRun(t: Trace, w0: World, sp: seq<nat>, even: nat, odd: nat, slot: map<Ref, nat>, num: bool, r: Reg,
                                     phis: seq<Phi>, rest: seq<MIns>, w: World, m: MState) returns (m': MState)
    requires Sane(m) && WellFormed(t) && |sp| == |t.ir| && SlotsOk(t, sp, even, odd) && RID_ZERO < r < NREGS
    requires LeftsApart(phis) && Ordered(phis, slot) && Sources(t, w0, sp, slot, num, phis, m)
    ensures Around(m, m', r) && Run(SlotCopies(t, sp, slot, num, r, phis) + rest, w, m) == Run(rest, w, m')
    ensures Targets(t, w0, sp, slot, num, phis, m') && OthersSame(t, sp, slot, num, phis, m, m')
  {
    hide Value, SlotsOk, Step, SlotHolds, SameSlot, Copied, Sources, Targets, OthersSame, LeftsApart, Ordered, Around, OnlySlot;
    if phis == [] {
      assert SlotCopies(t, sp, slot, num, r, phis) + rest == rest;
      m' := m;
      NoCopies(t, w0, sp, slot, num, r, m);
    } else {
      TailApart(phis, slot);
      if Copied(t, sp, slot, num, phis[0]) {
        var m1 := FirstCopy(t, w0, sp, even, odd, slot, num, r, phis, rest, w, m);
        m' := CopiesRun(t, w0, sp, even, odd, slot, num, r, phis[1..], rest, w, m1);
        AroundTwice(m, m1, m', r);
        CopiesThen(t, w0, sp, slot, num, phis, m, m1, m');
      } else {
        assert SlotCopies(t, sp, slot, num, r, phis) == SlotCopies(t, sp, slot, num, r, phis[1..]);
        SameSelf(t, sp, phis[0].left, m);
        SourcesStay(t, w0, sp, slot, num, phis, m, m);
        m' := CopiesRun(t, w0, sp, even, odd, slot, num, r, phis[1..], rest, w, m);
        CopiesNot(t, w0, sp, slot, num, phis, m, m');
      }
    }
  }

  lemma NoCopies(t: Trace, w: World, sp: seq<nat>, slot: map<Ref, nat>, num: bool, r: Reg, m: MState)
    requires WellFormed(t) && |sp| == |t.ir| && Sources(t, w, sp, slot, num, [], m)
    ensures Around(m, m, r) && Targets(t, w, sp, slot, num, [], m) && OthersSame(t, sp, slot, num, [], m, m)
  {}

  lemma FirstCopy(t: Trace, w0: World, sp: seq<nat>, even: nat, odd: nat, slot: map<Ref, nat>, num: bool, r: Reg,
                  phis: seq<Phi>, rest: seq<MIns>, w: World, m: MState) returns (m1: MState)
    requires Sane(m) && WellFormed(t) && |sp| == |t.ir| && SlotsOk(t, sp, even, odd) && RID_ZERO < r < NREGS
    requires phis != [] && Copied(t, sp, slot, num, phis[0])
    requires LeftsApart(phis) && Ordered(phis, slot) && Sources(t, w0, sp, slot, num, phis, m)
    ensures Sane(m1) && Around(m, m1, r)
    ensures Run(SlotCopies(t, sp, slot, num, r, phis) + rest, w, m) == Run(SlotCopies(t, sp, slot, num, r, phis[1..]) + rest, w, m1)
    ensures Sources(t, w0, sp, slot, num, phis[1..], m1) && OnlySlot(t, sp, phis[0].left, m, m1)
    ensures phis[0].right < |t.ir| && SlotHolds(m1, sp[phis[0].left], num, Value(t, w0, phis[0].right))
  {
    hide Value, SlotsOk, Step, SlotHolds, SameSlot, Copied, LeftsApart, Ordered, Around, OnlySlot;
    CopiedFacts(t, sp, slot, num, phis[0]);
    var src, dst := phis[0].right, phis[0].left;
    var load, save := SpLoad(r, slot[dst], num), SpStore(r, sp[dst], num);
    var code := SlotCopies(t, sp, slot, num, r, phis[1..]) + rest;
    assert SlotCopies(t, sp, slot, num, r, phis) + rest == [load] + ([save] + code);
    m1 := TwoSteps(load, save, code, w, m);
    CopyStep(t, sp, even, odd, src, dst, r, w, |code| + 2, |code| + 1, m, Value(t, w0, src));
    SourcesStay(t, w0, sp, slot, num, phis, m, m1);
  }

  lemma TwoSteps(a: MIns, b: MIns, code: seq<MIns>, w: World, m: MState) returns (m1: MState)
    requires Sane(m)
    ensures m1 == Step(b, w, |code| + 1, Step(a, w, |code| + 2, m)) && Run([a] + ([b] + code), w, m) == Run(code, w, m1)
  {
    hide Step;
    m1 := Step(b, w, |code| + 1, Step(a, w, |code| + 2, m));
    assert ([a] + ([b] + code))[1..] == [b] + code && ([b] + code)[1..] == code;
  }

  lemma SameSelf(t: Trace, sp: seq<nat>, dst: Ref, m: MState)
    requires |sp| == |t.ir| && Sane(m)
    ensures OnlySlot(t, sp, dst, m, m)
  {}

  lemma CopiedFacts(t: Trace, sp: seq<nat>, slot: map<Ref, nat>, num: bool, phi: Phi)
    requires Copied(t, sp, slot, num, phi)
    ensures phi.left < |t.ir| && phi.left < |sp| && IsNum(t.ir[phi.left]) == num && phi.left in slot && sp[phi.left] != 0
  {}

  lemma AroundTwice(m: MState, m1: MState, m': MState, r: Reg)
    requires Around(m, m1, r) && Around(m1, m', r)
    ensures Around(m, m', r)
  {}

  /** One copy, then the others. */
  lemma CopiesThen(t: Trace, w: World, sp: seq<nat>, slot: map<Ref, nat>, num: bool, phis: seq<Phi>, m: MState, m1: MState, m': MState)
    requires WellFormed(t) && |sp| == |t.ir| && phis != [] && LeftsApart(phis) && Copied(t, sp, slot, num, phis[0]) && Sane(m1)
    requires phis[0].right < |t.ir| && SlotHolds(m1, sp[phis[0].left], num, Value(t, w, phis[0].right))
    requires OnlySlot(t, sp, phis[0].left, m, m1)
    requires Targets(t, w, sp, slot, num, phis[1..], m') && OthersSame(t, sp, slot, num, phis[1..], m1, m')
    ensures Targets(t, w, sp, slot, num, phis, m') && OthersSame(t, sp, slot, num, phis, m, m')
  {
    hide Value, Copied;
    CopiedFacts(t, sp, slot, num, phis[0]);
    assert !CopiesTo(t, sp, slot, num, phis[1..], phis[0].left) by {
      forall k | 0 <= k < |phis[1..]|
        ensures phis[1..][k].left != phis[0].left
      {
        assert phis[0].left != phis[k + 1].left;
      }
    }
    assert SameSlot(m1, m', sp[phis[0].left], num);
    forall k | 0 <= k < |phis| && Copied(t, sp, slot, num, phis[k])
      ensures phis[k].right < |t.ir| && phis[k].left < |sp| && SlotHolds(m', sp[phis[k].left], num, Value(t, w, phis[k].right))
    {
      CopiedFacts(t, sp, slot, num, phis[k]);
      if k > 0 { assert phis[1..][k - 1] == phis[k]; }
    }
    forall ref | 0 <= ref < |sp| && sp[ref] != 0 && !CopiesTo(t, sp, slot, num, phis, ref)
      ensures SameSlot(m, m', sp[ref], IsNum(t.ir[ref]))
    {
      NotCopiedTo(t, sp, slot, num, phis, ref);
      assert ref != phis[0].left;
      assert SameSlot(m, m1, sp[ref], IsNum(t.ir[ref])) && SameSlot(m1, m', sp[ref], IsNum(t.ir[ref]));
    }
  }

  lemma NotCopiedTo(t: Trace, sp: seq<nat>, slot: map<Ref, nat>, num: bool, phis: seq<Phi>, ref: Ref)
    requires phis != [] && !CopiesTo(t, sp, slot, num, phis, ref)
    ensures !CopiesTo(t, sp, slot, num, phis[1..], ref) && (Copied(t, sp, slot, num, phis[0]) ==> phis[0].left != ref)
  {
    hide Copied;
    forall k | 0 <= k < |phis[1..]| && Copied(t, sp, slot, num, phis[1..][k])
      ensures phis[1..][k].left != ref
    {
      assert Copied(t, sp, slot, num, phis[k + 1]);
    }
  }

  lemma CopiesNot(t: Trace, w: World, sp: seq<nat>, slot: map<Ref, nat>, num: bool, phis: seq<Phi>, m: MState, m': MState)
    requires WellFormed(t) && |sp| == |t.ir| && phis != [] && !Copied(t, sp, slot, num, phis[0])
    requires Targets(t, w, sp, slot, num, phis[1..], m') && OthersSame(t, sp, slot, num, phis[1..], m, m')
    ensures Targets(t, w, sp, slot, num, phis, m') && OthersSame(t, sp, slot, num, phis, m, m')
  {
    hide Value, Copied;
    forall k | 0 <= k < |phis| && Copied(t, sp, slot, num, phis[k])
      ensures phis[k].right < |t.ir| && phis[k].left < |sp| && SlotHolds(m', sp[phis[k].left], num, Value(t, w, phis[k].right))
    {
      CopiedFacts(t, sp, slot, num, phis[k]);
      assert phis[1..][k - 1] == phis[k];
    }
    forall ref | 0 <= ref < |sp| && sp[ref] != 0 && !CopiesTo(t, sp, slot, num, phis, ref)
      ensures SameSlot(m, m', sp[ref], IsNum(t.ir[ref]))
    {
      NotCopiedTo(t, sp, slot, num, phis, ref);
    }
  }

  lemma {:induction false} NoneCopied(t: Trace, sp: seq<nat>, slot: map<Ref, nat>, num: bool, r: Reg, phis: seq<Phi>)
    requires SlotCopies(t, sp, slot, num, r, phis) == []
    ensures forall k :: 0 <= k < |phis| ==> !Copied(t, sp, slot, num, phis[k])
  {
    if phis != [] {
      assert SlotCopies(t, sp, slot, num, r, phis) == CopyOf(t, sp, slot, num, r, phis[0]) + SlotCopies(t, sp, slot, num, r, phis[1..]);
      NoneCopied(t, sp, slot, num, r, phis[1..]);
      forall k | 0 <= k < |phis|
        ensures !Copied(t, sp, slot, num, phis[k])
      {
        if k > 0 { assert phis[k] == phis[1..][k - 1]; }
      }
    }
  }

  /** Slots for general use lie behind the fixed ones. */
  lemma FixedApart(t: Trace, sp: seq<nat>, even: nat, odd: nat, r: Reg, w: World, at: nat, m: MState)
    requires Sane(m) && |sp| == |t.ir| && SlotsOk(t, sp, even, odd) && RID_ZERO < r < NREGS
    ensures var m1 := Step(SpStore(r, SPS_TMP, true), w, at, m);
            && Sane(m1) && m1.regs == m.regs && m1.out == m.out && m1.slots[0] == m1.slots[1] == m.regs[r]
            && forall ref :: 0 <= ref < |sp| && sp[ref] != 0 ==> SameSlot(m, m1, sp[ref], IsNum(t.ir[ref]))
  {
    forall ref | 0 <= ref < |sp| && sp[ref] != 0
      ensures SPS_FIRST <= sp[ref]
    {
      assert SlotOk(t, sp, even, odd, ref);
    }
  }

  /** All slots in use are the same. */
  ghost predicate SameSlots(t: Trace, sp: seq<nat>, m: MState, m': MState)
    requires |sp| == |t.ir|
  {
    forall ref :: 0 <= ref < |sp| && sp[ref] != 0 ==> SameSlot(m, m', sp[ref], IsNum(t.ir[ref]))
  }

  lemma SourcesSame(t: Trace, w: World, sp: seq<nat>, slot: map<Ref, nat>, num: bool, phis: seq<Phi>, m: MState, m': MState)
    requires WellFormed(t) && |sp| == |t.ir| && Sane(m') && Sources(t, w, sp, slot, num, phis, m) && SameSlots(t, sp, m, m')
    ensures Sources(t, w, sp, slot, num, phis, m')
  {
    hide Value;
    forall k | 0 <= k < |phis| && Copied(t, sp, slot, num, phis[k])
      ensures SlotHolds(m', sp[phis[k].right], num, Value(t, w, phis[k].right))
    {
      assert SameSlot(m, m', sp[phis[k].right], IsNum(t.ir[phis[k].right]));
    }
  }

  lemma OthersSameMore(t: Trace, sp: seq<nat>, slot: map<Ref, nat>, num: bool, phis: seq<Phi>, m: MState, m1: MState, m2: MState, m': MState)
    requires |sp| == |t.ir| && SameSlots(t, sp, m, m1) && OthersSame(t, sp, slot, num, phis, m1, m2)
    requires Sane(m2) && Sane(m') && m'.slots == m2.slots
    ensures OthersSame(t, sp, slot, num, phis, m, m')
  {
    hide CopiesTo;
  }

  /** The copies of floating-point numbers, whose register keeps its value if it is in use. */
  lemma GuardedRun(t: Trace, w0: World, sp: seq<nat>, even: nat, odd: nat, slot: map<Ref, nat>, free: set<Reg>, r: Reg,
                   phis: seq<Phi>, rest: seq<MIns>, w: World, m: MState) returns (m': MState)
    requires Sane(m) && WellFormed(t) && |sp| == |t.ir| && SlotsOk(t, sp, even, odd) && RID_ZERO < r < NREGS
    requires LeftsApart(phis) && Ordered(phis, slot) && Sources(t, w0, sp, slot, true, phis, m)
    ensures Sane(m')
    ensures Run(Guarded(free, r, SlotCopies(t, sp, slot, true, r, phis)) + rest, w, m) == Run(rest, w, m')
    ensures m'.out == m.out && forall q :: 0 <= q < NREGS && (q != r || r !in free) ==> m'.regs[q] == m.regs[q]
    ensures Targets(t, w0, sp, slot, true, phis, m') && OthersSame(t, sp, slot, true, phis, m, m')
  {
    hide Value, SlotsOk, Step, SlotHolds, SameSlot, Copied, Sources, Targets, OthersSame, LeftsApart, Ordered, SlotCopies;
    var copies := SlotCopies(t, sp, slot, true, r, phis);
    if copies == [] {
      NoneCopied(t, sp, slot, true, r, phis);
      m' := m;
      assert Guarded(free, r, copies) + rest == rest;
      NothingCopied(t, w0, sp, slot, true, phis, m);
    } else if r in free {
      m' := CopiesRun(t, w0, sp, even, odd, slot, true, r, phis, rest, w, m);
    } else {
      m' := SavedRun(t, w0, sp, even, odd, slot, r, phis, rest, w, m);
    }
  }

  lemma NothingCopied(t: Trace, w: World, sp: seq<nat>, slot: map<Ref, nat>, num: bool, phis: seq<Phi>, m: MState)
    requires WellFormed(t) && |sp| == |t.ir| && Sane(m) && forall k :: 0 <= k < |phis| ==> !Copied(t, sp, slot, num, phis[k])
    ensures Targets(t, w, sp, slot, num, phis, m) && OthersSame(t, sp, slot, num, phis, m, m)
  {}

  lemma SavedRun(t: Trace, w0: World, sp: seq<nat>, even: nat, odd: nat, slot: map<Ref, nat>, r: Reg,
                 phis: seq<Phi>, rest: seq<MIns>, w: World, m: MState) returns (m': MState)
    requires Sane(m) && WellFormed(t) && |sp| == |t.ir| && SlotsOk(t, sp, even, odd) && RID_ZERO < r < NREGS
    requires LeftsApart(phis) && Ordered(phis, slot) && Sources(t, w0, sp, slot, true, phis, m)
    ensures Sane(m')
    ensures Run([SpStore(r, SPS_TMP, true)] + (SlotCopies(t, sp, slot, true, r, phis) + [SpLoad(r, SPS_TMP, true)]) + rest, w, m) ==
            Run(rest, w, m')
    ensures m'.out == m.out && m'.regs == m.regs
    ensures Targets(t, w0, sp, slot, true, phis, m') && OthersSame(t, sp, slot, true, phis, m, m')
  {
    hide Value, SlotsOk, Step, SlotHolds, SameSlot, Copied, Sources, Targets, OthersSame, LeftsApart, Ordered, SlotCopies;
    var save, load := SpStore(r, SPS_TMP, true), SpLoad(r, SPS_TMP, true);
    var copies := SlotCopies(t, sp, slot, true, r, phis);
    var code := [save] + (copies + [load]) + rest;
    var m1 := Step(save, w, |code|, m);
    assert code == [save] + (copies + ([load] + rest)) && code[1..] == copies + ([load] + rest);
    FixedApart(t, sp, even, odd, r, w, |code|, m);
    SourcesSame(t, w0, sp, slot, true, phis, m, m1);
    var m2 := CopiesRun(t, w0, sp, even, odd, slot, true, r, phis, [load] + rest, w, m1);
    m' := Step(load, w, |rest| + 1, m2);
    assert ([load] + rest)[1..] == rest;
    Reloaded(m1, m2, r, w, |rest| + 1);
    OthersSameMore(t, sp, slot, true, phis, m, m1, m2, m');
    TargetsSame(t, w0, sp, slot, true, phis, m2, m');
  }

  lemma Reloaded(m1: MState, m2: MState, r: Reg, w: World, at: nat)
    requires Around(m1, m2, r) && r < NREGS && m1.slots[0] == m1.slots[1] == m1.regs[r]
    ensures var m' := Step(SpLoad(r, SPS_TMP, true), w, at, m2); Sane(m') && m'.regs == m1.regs && m'.slots == m2.slots && m'.out == m1.out
  {
    assert m2.slots[0] == m2.slots[..SPS_FIRST][0] && m2.slots[1] == m2.slots[..SPS_FIRST][1];
    assert m1.slots[0] == m1.slots[..SPS_FIRST][0] && m1.slots[1] == m1.slots[..SPS_FIRST][1];
    var m' := Step(SpLoad(r, SPS_TMP, true), w, at, m2);
    assert forall q :: 0 <= q < NREGS ==> m'.regs[q] == m1.regs[q];
  }

  lemma TargetsSame(t: Trace, w: World, sp: seq<nat>, slot: map<Ref, nat>, num: bool, phis: seq<Phi>, m: MState, m': MState)
    requires WellFormed(t) && Sane(m) && Sane(m') && m'.slots == m.slots && Targets(t, w, sp, slot, num, phis, m)
    ensures Targets(t, w, sp, slot, num, phis, m')
  {
    hide Value;
  }

  /** Copies of one kind do not see those of the other. */
  lemma KindsApart(t: Trace, w: World, sp: seq<nat>, slot: map<Ref, nat>, num: bool, phis: seq<Phi>, m: MState, m': MState)
    requires WellFormed(t) && |sp| == |t.ir| && Sane(m') && OthersSame(t, sp, slot, num, phis, m, m')
    ensures Sources(t, w, sp, slot, !num, phis, m) ==> Sources(t, w, sp, slot, !num, phis, m')
    ensures Targets(t, w, sp, slot, !num, phis, m) ==> Targets(t, w, sp, slot, !num, phis, m')
  {
    hide Value;
    forall ref | 0 <= ref < |sp| && sp[ref] != 0 && IsNum(t.ir[ref]) == !num
      ensures SameSlot(m, m', sp[ref], IsNum(t.ir[ref]))
    {
      assert !CopiesTo(t, sp, slot, num, phis, ref);
    }
  }

  /** Slots that no copy writes to. */
  ghost predicate Untouched(t: Trace, sp: seq<nat>, slot: map<Ref, nat>, m: MState, m': MState)
    requires |sp| == |t.ir|
  {
    forall ref :: 0 <= ref < |sp| && sp[ref] != 0 && ref !in slot ==> SameSlot(m, m', sp[ref], IsNum(t.ir[ref]))
  }

  /** All copies together: left operands of PHIs in slots have the values of their right operands; no
      other slot in use changes, and neither does a register in use. */
  lemma AllCopiesRun(t: Trace, w0: World, sp: seq<nat>, even: nat, odd: nat, slot: map<Ref, nat>, free: set<Reg>, r: Reg,
                     phis: seq<Phi>, rest: seq<MIns>, w: World, m: MState) returns (m': MState)
    requires Sane(m) && WellFormed(t) && |sp| == |t.ir| && SlotsOk(t, sp, even, odd) && r in FPR && LeftsApart(phis) && Ordered(phis, slot)
    requires Sources(t, w0, sp, slot, true, phis, m) && Sources(t, w0, sp, slot, false, phis, m)
    ensures Sane(m')
    ensures Run(AllCopies(t, free, sp, slot, r, phis) + rest, w, m) == Run(rest, w, m')
    ensures m'.out == m.out && forall q :: q in ALL && q !in free ==> m'.regs[q] == m.regs[q]
    ensures Targets(t, w0, sp, slot, true, phis, m') && Targets(t, w0, sp, slot, false, phis, m') && Untouched(t, sp, slot, m, m')
  {
    hide Value, SlotsOk, SlotHolds, SameSlot, Copied, Sources, Targets, OthersSame, LeftsApart, Ordered, SlotCopies, Guarded, Untouched;
    var fps, ints := Guarded(free, r, SlotCopies(t, sp, slot, true, r, phis)), SlotCopies(t, sp, slot, false, RID_TMP, phis);
    assert AllCopies(t, free, sp, slot, r, phis) + rest == fps + (ints + rest);
    var m1 := GuardedRun(t, w0, sp, even, odd, slot, free, r, phis, ints + rest, w, m);
    KindsApart(t, w0, sp, slot, true, phis, m, m1);
    m' := CopiesRun(t, w0, sp, even, odd, slot, false, RID_TMP, phis, rest, w, m1);
    KindsApart(t, w0, sp, slot, false, phis, m1, m');
    BothUntouched(t, sp, slot, phis, m, m1, m');
  }

  lemma BothUntouched(t: Trace, sp: seq<nat>, slot: map<Ref, nat>, phis: seq<Phi>, m: MState, m1: MState, m': MState)
    requires |sp| == |t.ir| && OthersSame(t, sp, slot, true, phis, m, m1) && OthersSame(t, sp, slot, false, phis, m1, m')
    ensures Untouched(t, sp, slot, m, m')
  {
    forall ref | 0 <= ref < |sp| && sp[ref] != 0 && ref !in slot
      ensures SameSlot(m, m', sp[ref], IsNum(t.ir[ref]))
    {
      assert !CopiesTo(t, sp, slot, true, phis, ref) && !CopiesTo(t, sp, slot, false, phis, ref);
    }
  }
}
