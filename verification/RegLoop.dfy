/** Loops in the trace assembler (luajit/lj_asm.c): what the end of a loop body leaves behind, how the
    next round finds it, and what repeating the body computes. */
module RegLoop {
  import opened RegAllocModel
  import opened RegShuffle
  import opened RegPhi

  // ---------------------------------------------------------------- the start of the body

  /** As `Holds`, but the slots of the references in `saved` may hold anything, and so may the
      output so far. */
  ghost predicate Enters(t: Trace, w: World, v: View, saved: set<Ref>, m: MState)
    requires ValidView(t, v)
  {
    && Sane(m) && (forall ref :: ref in w.given ==> ref < v.cur)
    && (forall r :: r in ALL && r !in v.free ==> m.regs[r] == Value(t, w, v.cost[r]))
    && (forall ref :: 0 <= ref < v.cur && v.sp[ref] != 0 && ref !in saved ==>
          SlotHolds(m, v.sp[ref], IsNum(t.ir[ref]), Value(t, w, ref)))
  }

  ghost predicate SoundBut(t: Trace, code: seq<MIns>, v: View, saved: set<Ref>)
    requires ValidView(t, v)
  {
    forall w: World, m: MState :: Enters(t, w, v, saved, m) && m.out == Stores(t, w, v.cur) ==>
      Ends(t, w, v.ending, Run(code, w, m))
  }

  lemma SoundButStart(t: Trace, code: seq<MIns>, v: View)
    requires ValidView(t, v) && Sound(t, code, v, None)
    ensures SoundBut(t, code, v, {})
  {
    forall w: World, m: MState | Enters(t, w, v, {}, m) && m.out == Stores(t, w, v.cur)
      ensures Ends(t, w, v.ending, Run(code, w, m))
    {
      assert Holds(t, w, v, None, m);
    }
  }

  lemma SoundButEnd(t: Trace, code: seq<MIns>, v: View, saved: set<Ref>)
    requires ValidView(t, v) && SoundBut(t, code, v, saved)
    ensures Sound(t, code, v, None)
  {
    forall w: World, m: MState | Holds(t, w, v, None, m)
      ensures Ends(t, w, v.ending, Run(code, w, m))
    {
      assert Enters(t, w, v, saved, m);
    }
  }

  lemma SoundButAssigned(t: Trace, code: seq<MIns>, v: View, saved: set<Ref>, ref: Ref, r: Reg)
    requires ValidView(t, v) && SoundBut(t, code, v, saved) && ref < |v.rs| && r in v.free && ValidView(t, Assigned(v, ref, r))
    ensures SoundBut(t, code, Assigned(v, ref, r), saved)
  {
    var v' := Assigned(v, ref, r);
    forall w: World, m: MState | Enters(t, w, v', saved, m) && m.out == Stores(t, w, v'.cur)
      ensures Ends(t, w, v'.ending, Run(code, w, m))
    {
      assert Enters(t, w, v, saved, m);
    }
  }

  lemma SavedEnters(t: Trace, w: World, v: View, saved: set<Ref>, ref: Ref, r: Reg, at: nat, m: MState)
    requires ref < v.cur && ref < |v.rs| && ref < |v.sp| && ref < |t.ir| && v.rs[ref] == InReg(r) && v.sp[ref] != 0
    requires ValidView(t, v) && Enters(t, w, v, saved + {ref}, m)
    ensures Enters(t, w, v, saved, Step(SpStore(r, v.sp[ref], IsNum(t.ir[ref])), w, at, m))
  {
    hide SlotHolds, Owned, Value;
    var s, wide := v.sp[ref], IsNum(t.ir[ref]);
    var m' := Step(SpStore(r, s, wide), w, at, m);
    assert Placed(v, ref);
    assert m'.regs == m.regs;
    forall a | 0 <= a < v.cur && v.sp[a] != 0 && a !in saved
      ensures SlotHolds(m', v.sp[a], IsNum(t.ir[a]), Value(t, w, a))
    {
      assert SlotOk(t, v.sp, v.even, v.odd, ref);
      if a == ref {
        SaveHolds(w, at, m, r, s, wide, Value(t, w, ref));
      } else {
        assert SlotsApart(t, v.sp);
        SaveElsewhere(w, at, m, r, s, wide, v.sp[a], IsNum(t.ir[a]), Value(t, w, a));
      }
    }
  }

  lemma SaveHolds(w: World, at: nat, m: MState, r: Reg, s: nat, wide: bool, x: Val)
    requires Sane(m) && r != RID_ZERO && r < NREGS && m.regs[r] == x && s < NSLOTS && (wide ==> s + 1 < NSLOTS)
    ensures SlotHolds(Step(SpStore(r, s, wide), w, at, m), s, wide, x)
  {}

  /** A PHI is saved at the start of the body: what its slot held before does not matter. */
  lemma SaveLeft(t: Trace, code: seq<MIns>, v: View, saved: set<Ref>, ref: Ref, r: Reg)
    requires ref < v.cur && ref < |v.rs| && ref < |v.sp| && ref < |t.ir| && v.rs[ref] == InReg(r) && v.sp[ref] != 0
    requires ValidView(t, v) && SoundBut(t, code, v, saved)
    ensures SoundBut(t, [SpStore(r, v.sp[ref], IsNum(t.ir[ref]))] + code, v, saved + {ref})
  {
    hide Step, SlotsOk, Owned, Placed, WellFormed;
    var ins := SpStore(r, v.sp[ref], IsNum(t.ir[ref]));
    forall w: World, m: MState | Enters(t, w, v, saved + {ref}, m) && m.out == Stores(t, w, v.cur)
      ensures Ends(t, w, v.ending, Run([ins] + code, w, m))
    {
      var m' := Step(ins, w, |code| + 1, m);
      SavedEnters(t, w, v, saved, ref, r, |code| + 1, m);
      SaveOut(ins, w, |code| + 1, m);
      assert ([ins] + code)[1..] == code;
    }
  }

  lemma SaveOut(ins: MIns, w: World, at: nat, m: MState)
    requires Sane(m) && ins.SpStore?
    ensures Step(ins, w, at, m).out == m.out
  {}

  // ---------------------------------------------------------------- rounds

  /** What the end of the body has to leave behind for the next round: the right operands in the
      PHI registers and in the slots of PHIs, and everything else where the start of the body
      expects it. */
  ghost function NextRound(v: View, left: map<Reg, Ref>, slot: map<Ref, nat>, ending: Ending): Ending
    requires |v.cost| == NREGS && left.Keys <= ending.regs.Keys && v.cur <= |v.sp|
  {
    Ending(map r | r in ALL - v.free :: if r in left then ending.regs[r] else v.cost[r],
           map ref | ref in ending.slots.Keys + Lasting(v, left, slot) :: if ref in ending.slots then ending.slots[ref] else v.sp[ref])
  }

  /** References in slots that stay as they are in all rounds. */
  ghost function Lasting(v: View, left: map<Reg, Ref>, slot: map<Ref, nat>): set<Ref>
    requires v.cur <= |v.sp|
  {
    set ref | 0 <= ref < v.cur && v.sp[ref] != 0 && ref !in left.Values && ref !in slot
  }

  /** The body neither writes the registers of invariants nor their slots. */
  lemma RoundEnds(t: Trace, code: seq<MIns>, v: View, left: map<Reg, Ref>, slot: map<Ref, nat>, mod: set<Reg>, saved: set<Ref>)
    requires left.Keys <= v.ending.regs.Keys && saved <= left.Values && (forall r :: r in ALL && r !in v.free && r in mod ==> r in left)
    requires ValidView(t, v) && SoundBut(t, code, v, saved) && AllTame(t, code, mod, v.sp, v.cur, left.Values)
    ensures var v' := v.(ending := NextRound(v, left, slot, v.ending)); ValidView(t, v') && SoundBut(t, code, v', saved)
  {
    var v' := v.(ending := NextRound(v, left, slot, v.ending));
    NextRoundOk(t, v, left, slot);
    SameButEnding(t, v, v');
    forall w: World, m: MState | Enters(t, w, v', saved, m) && m.out == Stores(t, w, v'.cur)
      ensures Ends(t, w, v'.ending, Run(code, w, m))
    {
      assert Enters(t, w, v, saved, m);
      MetKept(t, code, v, left, slot, mod, saved, w, m);
    }
  }

  lemma NextRoundOk(t: Trace, v: View, left: map<Reg, Ref>, slot: map<Ref, nat>)
    requires left.Keys <= v.ending.regs.Keys && ValidView(t, v)
    ensures EndingOk(t, NextRound(v, left, slot, v.ending))
  {
    hide SlotsOk;
    var next := NextRound(v, left, slot, v.ending);
    forall r | r in next.regs
      ensures next.regs[r] < |t.ir|
    {
      assert Owned(t, v, r);
    }
  }

  lemma MetKept(t: Trace, code: seq<MIns>, v: View, left: map<Reg, Ref>, slot: map<Ref, nat>, mod: set<Reg>, saved: set<Ref>,
                w: World, m: MState)
    requires left.Keys <= v.ending.regs.Keys && saved <= left.Values && (forall r :: r in ALL && r !in v.free && r in mod ==> r in left)
    requires ValidView(t, v) && AllTame(t, code, mod, v.sp, v.cur, left.Values)
    requires Enters(t, w, v, saved, m) && Met(t, w, v.ending, Run(code, w, m)) && EndingOk(t, NextRound(v, left, slot, v.ending))
    ensures Met(t, w, NextRound(v, left, slot, v.ending), Run(code, w, m))
  {
    hide AllTame, SlotHolds, Value;
    var next := NextRound(v, left, slot, v.ending);
    var e := Run(code, w, m);
    forall r | r in next.regs
      ensures e.regs[r] == Value(t, w, next.regs[r])
    {
      if r !in left {
        assert Owned(t, v, r);
        RegKept(t, code, mod, v.sp, v.cur, left.Values, w, m, r);
      }
    }
    forall ref | ref in next.slots
      ensures SlotHolds(e, next.slots[ref], IsNum(t.ir[ref]), Value(t, w, ref))
    {
      if ref !in v.ending.slots { SlotKept(t, code, mod, v, left.Values, w, m, ref, Value(t, w, ref)); }
    }
  }

  // ---------------------------------------------------------------- output

  /** What code outputs does not depend on earlier output. */
  lemma {:induction false} OutApart(code: seq<MIns>, w: World, m: MState, o: seq<(Val, Val)>)
    requires Sane(m)
    ensures Run(code, w, m.(out := o + m.out)) == (var e := Run(code, w, m); e.(out := o + e.out))
  {
    if code != [] {
      var m' := Step(code[0], w, |code|, m);
      StepOutApart(code[0], w, |code|, m, o);
      OutApart(code[1..], w, m', o);
    }
  }

  lemma StepOutApart(ins: MIns, w: World, at: nat, m: MState, o: seq<(Val, Val)>)
    requires Sane(m)
    ensures Step(ins, w, at, m.(out := o + m.out)) == (var e := Step(ins, w, at, m); e.(out := o + e.out))
  {
    if ins.StoreX? {
      var shown := [(Get(m, ins.b), Get(m, ins.s))];
      assert o + m.out + shown == o + (m.out + shown);
    }
    if ins.CallRound? {
      assert Step(ins, w, at, m.(out := o + m.out)).regs == Step(ins, w, at, m).regs;
    }
  }

  /** The stores that the entries from n on perform. */
  ghost function Later(t: Trace, w: World, n: nat): seq<(Val, Val)>
    requires WellFormed(t) && t.first <= n <= |t.ir|
    decreases |t.ir| - n
  {
    if n == |t.ir| then [] else
    assert EntryOk(t, n);
    (if t.ir[n].XStore? then [(Value(t, w, t.ir[n].op1), Value(t, w, t.ir[n].op2))] else []) + Later(t, w, n + 1)
  }

  lemma {:induction false} StoresSplit(t: Trace, w: World, n: nat)
    requires WellFormed(t) && t.first <= n <= |t.ir|
    ensures Stores(t, w, |t.ir|) == Stores(t, w, n) + Later(t, w, n)
    decreases |t.ir| - n
  {
    if n < |t.ir| { StoresSplit(t, w, n + 1); }
  }

  /** What the body outputs in a round, after any output. */
  lemma RoundOutput(t: Trace, code: seq<MIns>, v: View, saved: set<Ref>, w: World, m: MState)
    requires ValidView(t, v) && t.first <= v.cur && SoundBut(t, code, v, saved) && Enters(t, w, v, saved, m)
    ensures Run(code, w, m).out == m.out + Later(t, w, v.cur) && Met(t, w, v.ending, Run(code, w, m))
  {
    hide Value, Step;
    var s := Stores(t, w, v.cur);
    var m0, m1 := m.(out := []), m.(out := s);
    assert m0.out + [] == [] && s + m0.out == s && m.out + m0.out == m.out;
    assert Enters(t, w, v, saved, m1);
    StoresSplit(t, w, v.cur);
    OutApart(code, w, m0, s);
    OutApart(code, w, m0, m.out);
    assert m0.(out := s + m0.out) == m1 && m0.(out := m.out + m0.out) == m;
    var e := Run(code, w, m0);
    assert s + e.out == s + Later(t, w, v.cur);
    assert e.out == (s + e.out)[|s|..];
    MetSame(t, w, v.ending, Run(code, w, m1), Run(code, w, m));
  }

  lemma MetSame(t: Trace, w: World, ending: Ending, m: MState, m': MState)
    requires WellFormed(t) && EndingOk(t, ending) && Met(t, w, ending, m) && m'.regs == m.regs && m'.slots == m.slots
    ensures Met(t, w, ending, m')
  {}

  // ---------------------------------------------------------------- what a loop means

  /** The first round: references before the loop have their values. */
  ghost function FirstRound(t: Trace, w: World): World
    requires WellFormed(t) && t.loop.Some?
  {
    w.(given := map ref | t.first <= ref < t.loop.value.start :: Value(t, w, ref))
  }

  /** A reference at the start of the next round. */
  ghost function Carried(t: Trace, w: World, ref: Ref): Val
    requires WellFormed(t) && t.loop.Some? && ref < |t.ir|
  {
    RightOfOk(t, t.loop.value.phis, t.loop.value.start, ref);
    Value(t, w, RightOf(t.loop.value.phis, ref))
  }

  /** The next round: left operands take on the values of their right operands, and all other
      references before the loop stay as they are. */
  ghost function Again(t: Trace, w: World, junk: (nat, Reg) -> Val): World
    requires WellFormed(t) && t.loop.Some?
  {
    w.(given := map ref | t.first <= ref < t.loop.value.start :: Carried(t, w, ref), junk := junk)
  }

  /** Round n of the loop; `junk` tells what calls leave behind in each round. */
  ghost function Round(t: Trace, w: World, junk: nat -> (nat, Reg) -> Val, n: nat): World
    requires WellFormed(t) && t.loop.Some?
  {
    if n == 0 then FirstRound(t, w) else Again(t, Round(t, w, junk, n - 1), junk(n))
  }

  /** All stores of the trace, when its loop is repeated n times. */
  ghost function AllStores(t: Trace, w: World, junk: nat -> (nat, Reg) -> Val, n: nat): seq<(Val, Val)>
    requires WellFormed(t) && t.loop.Some?
  {
    if n == 0 then Stores(t, w, |t.ir|)
    else AllStores(t, w, junk, n - 1) + Later(t, Round(t, w, junk, n), t.loop.value.start)
  }

  /** The machine after n more rounds. */
  ghost function Repeat(t: Trace, body: seq<MIns>, w: World, junk: nat -> (nat, Reg) -> Val, n: nat, m: MState): (m': MState)
    requires WellFormed(t) && t.loop.Some? && Sane(m)
    ensures Sane(m')
  {
    if n == 0 then m else Run(body, Round(t, w, junk, n), Repeat(t, body, w, junk, n - 1, m))
  }

  lemma {:induction false} FirstRoundValue(t: Trace, w: World, r: Ref)
    requires WellFormed(t) && t.loop.Some? && w.given == map[] && r < |t.ir|
    ensures Value(t, FirstRound(t, w), r) == Value(t, w, r)
    decreases r
  {
    assert EntryOk(t, r);
    if r >= t.loop.value.start {
      match t.ir[r]
      case Add(a, b) => FirstRoundValue(t, w, a); FirstRoundValue(t, w, b);
      case Sub(a, b) => FirstRoundValue(t, w, a); FirstRoundValue(t, w, b);
      case FArith(_, a, b) => FirstRoundValue(t, w, a); FirstRoundValue(t, w, b);
      case Round(a) => FirstRoundValue(t, w, a);
      case _ =>
    }
  }

  lemma AgainValue(t: Trace, w: World, junk: (nat, Reg) -> Val, ref: Ref)
    requires WellFormed(t) && t.loop.Some? && ref < t.loop.value.start
    ensures Value(t, Again(t, w, junk), ref) == Carried(t, w, ref)
  {
    RightOfOk(t, t.loop.value.phis, t.loop.value.start, ref);
    if ref < t.first { 
      assert forall k :: 0 <= k < |t.loop.value.phis| ==> PhiOk(t, t.loop.value.phis[k], t.loop.value.start);
    }
  }

  /** What a round starts with: the left operand of each PHI is what its right operand was in the round
      before, and all other references before the loop are what they were. */
  lemma RoundCarries(t: Trace, w: World, junk: nat -> (nat, Reg) -> Val, n: nat)
    requires WellFormed(t) && t.loop.Some?
    ensures forall phi :: phi in t.loop.value.phis ==>
              && phi.left < |t.ir| && phi.right < |t.ir|
              && Value(t, Round(t, w, junk, n + 1), phi.left) == Value(t, Round(t, w, junk, n), phi.right)
    ensures forall ref: Ref :: ref < t.loop.value.start && ref !in LeftsOf(t.loop.value.phis) ==>
              Value(t, Round(t, w, junk, n + 1), ref) == Value(t, Round(t, w, junk, n), ref)
  {
    hide Value;
    var w0, phis := Round(t, w, junk, n), t.loop.value.phis;
    forall phi | phi in phis
      ensures phi.left < |t.ir| && phi.right < |t.ir| && Value(t, Round(t, w, junk, n + 1), phi.left) == Value(t, w0, phi.right)
    {
      var k: nat :| k < |phis| && phis[k] == phi;
      assert PhiOk(t, phis[k], t.loop.value.start);
      AgainValue(t, w0, junk(n + 1), phi.left);
      RightAt(phis, k);
    }
    forall ref: Ref | ref < t.loop.value.start && ref !in LeftsOf(phis)
      ensures Value(t, Round(t, w, junk, n + 1), ref) == Value(t, w0, ref)
    {
      AgainValue(t, w0, junk(n + 1), ref);
      RightOfOk(t, phis, t.loop.value.start, ref);
    }
  }

  /** No left operand of a PHI in a slot is in a register. */
  predicate InStep(v: View, slot: map<Ref, nat>) {
    forall ref :: ref in slot ==> ref < |v.rs| && !v.rs[ref].InReg?
  }

  lemma InStepNow(v: View, slot: map<Ref, nat>, stale: set<Ref>)
    requires (forall ref :: ref in slot ==> ref < |v.rs|) && stale == {}
    requires forall ref :: ref in slot && ref < |v.rs| && v.rs[ref].InReg? ==> ref in stale
    ensures InStep(v, slot)
  {}

  /** The home of no left operand has some other reference. */
  lemma NotAtHome(v: View, left: map<Reg, Ref>, ref: Ref, r: Reg)
    requires AllSettled(v, left) && ref !in left.Values && r < |v.cost| && v.cost[r] == ref && r !in v.free
    ensures r !in left
  {
    forall q | q in left
      ensures q != r
    {
      assert Settled(v, left, q) && left[q] in left.Values;
    }
  }

  lemma SlotLefts(t: Trace, left: map<Reg, Ref>, slot: map<Ref, nat>)
    requires WellFormed(t) && t.loop.Some? && left.Values + slot.Keys == LeftsOf(t.loop.value.phis)
    ensures forall ref :: ref in slot ==> ref < t.loop.value.start <= |t.ir|
  {
    forall ref | ref in slot
      ensures ref < t.loop.value.start <= |t.ir|
    {
      assert ref in LeftsOf(t.loop.value.phis);
      var k :| 0 <= k < |t.loop.value.phis| && t.loop.value.phis[k].left == ref;
      assert PhiOk(t, t.loop.value.phis[k], t.loop.value.start);
    }
  }

  /** What is known of a body and its PHIs once the start of the loop has been emitted. */
  ghost predicate LoopReady(t: Trace, body: seq<MIns>, v: View, left: map<Reg, Ref>, slot: map<Ref, nat>, saved: set<Ref>) {
    && ValidView(t, v) && t.loop.Some? && v.cur == t.loop.value.start
    && SoundBut(t, body, v, saved) && AllSettled(v, left) && InStep(v, slot)
    && PhisOk(t.loop.value.phis, left, slot, v.ending.slots) && EndingKept(v.ending, v.sp)
    && RegsEnd(v, left, t.loop.value.phis) && SlotsEnd(v, left, slot, saved)
  }

  predicate PhisOk(phis: seq<Phi>, left: map<Reg, Ref>, slot: map<Ref, nat>, slots: map<Ref, nat>) {
    left.Values + slot.Keys == LeftsOf(phis) && SlotsRight(phis, slot, slots) && Ordered(phis, slot)
  }

  predicate RegsEnd(v: View, left: map<Reg, Ref>, phis: seq<Phi>) {
    && (forall r :: r in ALL && r !in v.free ==> r in v.ending.regs)
    && (forall r :: r in v.ending.regs && r in left ==> v.ending.regs[r] == RightOf(phis, left[r]))
    && (forall r :: r in v.ending.regs && r !in left && r < |v.cost| ==> v.ending.regs[r] == v.cost[r])
  }

  predicate SlotsEnd(v: View, left: map<Reg, Ref>, slot: map<Ref, nat>, saved: set<Ref>) {
    forall ref :: 0 <= ref < v.cur && ref < |v.sp| && v.sp[ref] != 0 && ref !in saved && ref !in slot ==>
      ref in v.ending.slots && ref !in left.Values
  }

  lemma LoopIsReady(t: Trace, body: seq<MIns>, v: View, left: map<Reg, Ref>, slot: map<Ref, nat>, saved: set<Ref>)
    requires t.loop.Some? && v.cur == t.loop.value.start && |v.cost| == NREGS && v.cur <= |v.sp| && left.Keys <= v.ending.regs.Keys
    requires PhisPlaced(t.loop.value.phis, left, slot, v.ending) && AllSettled(v, left) && InStep(v, slot) && EndingKept(v.ending, v.sp)
    requires forall ref :: ref in left.Values && ref < |v.sp| && v.sp[ref] != 0 ==> ref in saved
    requires var v' := v.(ending := NextRound(v, left, slot, v.ending)); ValidView(t, v') && SoundBut(t, body, v', saved)
    ensures LoopReady(t, body, v.(ending := NextRound(v, left, slot, v.ending)), left, slot, saved)
  {
    hide SoundBut, ValidView, RegsEnd, SlotsEnd, AllSettled, EndingKept, NextRound, PhisOk, PhisPlaced;
    var next := NextRound(v, left, slot, v.ending);
    SettledSame(v, left, next);
    NextKept(v, left, slot);
    NextEnds(t, v, left, slot, saved);
  }

  lemma NextKept(v: View, left: map<Reg, Ref>, slot: map<Ref, nat>)
    requires |v.cost| == NREGS && left.Keys <= v.ending.regs.Keys && v.cur <= |v.sp| && EndingKept(v.ending, v.sp)
    ensures EndingKept(NextRound(v, left, slot, v.ending), v.sp)
  {}

  lemma NextEnds(t: Trace, v: View, left: map<Reg, Ref>, slot: map<Ref, nat>, saved: set<Ref>)
    requires t.loop.Some? && |v.cost| == NREGS && v.cur <= |v.sp| && left.Keys <= v.ending.regs.Keys
    requires PhisPlaced(t.loop.value.phis, left, slot, v.ending)
    requires forall ref :: ref in left.Values && ref < |v.sp| && v.sp[ref] != 0 ==> ref in saved
    ensures var next := NextRound(v, left, slot, v.ending);
            && PhisOk(t.loop.value.phis, left, slot, next.slots)
            && RegsEnd(v.(ending := next), left, t.loop.value.phis) && SlotsEnd(v.(ending := next), left, slot, saved)
  {
    hide LeftsOf, RightOf, Ordered;
  }

  lemma SettledSame(v: View, left: map<Reg, Ref>, ending: Ending)
    requires AllSettled(v, left)
    ensures AllSettled(v.(ending := ending), left)
  {
    forall q | q in left
      ensures Settled(v.(ending := ending), left, q)
    {
      assert Settled(v, left, q);
    }
  }

  /** A left operand that is in no PHI register, and has no slot, is no left operand. */
  lemma NotLeft(t: Trace, left: map<Reg, Ref>, slot: map<Ref, nat>, ref: Ref)
    requires WellFormed(t) && t.loop.Some? && left.Values + slot.Keys == LeftsOf(t.loop.value.phis)
    requires ref !in left.Values && ref !in slot && ref < |t.ir|
    ensures RightOf(t.loop.value.phis, ref) == ref
  {
    var phis := t.loop.value.phis;
    forall k | 0 <= k < |phis|
      ensures PhiOk(t, phis[k], t.loop.value.start) && phis[k].left != ref
    {
      assert phis[k] in phis && phis[k].left in LeftsOf(phis);
    }
    RightOfOk(t, phis, t.loop.value.start, ref);
  }

  /** At the end of a round the slots of PHIs have the values of their right operands. */
  lemma SourcesEnd(t: Trace, body: seq<MIns>, v: View, left: map<Reg, Ref>, slot: map<Ref, nat>, saved: set<Ref>, w: World, m: MState, num: bool)
    requires LoopReady(t, body, v, left, slot, saved) && Met(t, w, v.ending, m)
    ensures LeftsApart(t.loop.value.phis) && Sources(t, w, v.sp, slot, num, t.loop.value.phis, m)
  {
    hide SoundBut, SlotsOk, Value, SlotHolds, RegsEnd, SlotsEnd, AllSettled;
    var phis := t.loop.value.phis;
    forall k | 0 <= k < |phis| && Copied(t, v.sp, slot, num, phis[k])
      ensures phis[k].right < |t.ir| && IsNum(t.ir[phis[k].right]) == num
      ensures slot[phis[k].left] == v.sp[phis[k].right] != 0 && SlotHolds(m, v.sp[phis[k].right], num, Value(t, w, phis[k].right))
    {
      assert PhiOk(t, phis[k], t.loop.value.start);
      RightAt(phis, k);
    }
  }

  /** After the copies, the registers hold what the next round expects. */
  lemma RegsAgain(t: Trace, body: seq<MIns>, v: View, left: map<Reg, Ref>, slot: map<Ref, nat>, saved: set<Ref>,
                  w: World, junk: (nat, Reg) -> Val, m: MState, r: Reg)
    requires LoopReady(t, body, v, left, slot, saved) && Met(t, w, v.ending, m) && r in ALL && r !in v.free
    ensures m.regs[r] == Value(t, Again(t, w, junk), v.cost[r])
  {
    hide SoundBut, SlotsOk, Value, SlotHolds, PhiOk, SlotsEnd;
    assert Owned(t, v, r);
    AgainValue(t, w, junk, v.cost[r]);
    if r in left {
      assert Settled(v, left, r);
    } else {
      OnlyAtHome(t, v, left, r);
      NotLeft(t, left, slot, v.cost[r]);
    }
  }

  /** And so do the slots. */
  lemma SlotsAgain(t: Trace, body: seq<MIns>, v: View, left: map<Reg, Ref>, slot: map<Ref, nat>, saved: set<Ref>,
                   w: World, junk: (nat, Reg) -> Val, m: MState, m': MState, ref: Ref)
    requires LoopReady(t, body, v, left, slot, saved) && Met(t, w, v.ending, m) && Sane(m')
    requires Targets(t, w, v.sp, slot, IsNumRef(t, ref), t.loop.value.phis, m') && Untouched(t, v.sp, slot, m, m')
    requires ref < v.cur && v.sp[ref] != 0 && ref !in saved
    ensures SlotHolds(m', v.sp[ref], IsNum(t.ir[ref]), Value(t, Again(t, w, junk), ref))
  {
    hide SoundBut, SlotsOk, Value, PhiOk, RegsEnd, AllSettled, Ordered;
    var phis := t.loop.value.phis;
    AgainValue(t, w, junk, ref);
    if ref in slot {
      assert ref in LeftsOf(phis);
      var k :| 0 <= k < |phis| && phis[k].left == ref;
      RightAt(phis, k);
      assert Copied(t, v.sp, slot, IsNum(t.ir[ref]), phis[k]);
    } else {
      NotLeft(t, left, slot, ref);
      assert SameSlot(m, m', v.sp[ref], IsNum(t.ir[ref]));
    }
  }

  /** The end of a round, and the copies between slots, lead to a start of the next. */
  lemma EnterAgain(t: Trace, body: seq<MIns>, v: View, left: map<Reg, Ref>, slot: map<Ref, nat>, saved: set<Ref>, r: Reg,
                   w: World, junk: (nat, Reg) -> Val, m: MState) returns (m': MState)
    requires LoopReady(t, body, v, left, slot, saved) && Met(t, w, v.ending, m) && r in FPR
    ensures Sane(m') && Enters(t, Again(t, w, junk), v, saved, m') && m'.out == m.out
    ensures var phis := t.loop.value.phis;
            Run(AllCopies(t, v.free, v.sp, slot, r, phis) + body, Again(t, w, junk), m) == Run(body, Again(t, w, junk), m')
  {
    hide SoundBut, Value, SlotHolds, PhiOk, RegsEnd, SlotsEnd, AllSettled, Placed, SlotOk, SlotsApart, AllCopies, Untouched;
    var phis := t.loop.value.phis;
    SourcesEnd(t, body, v, left, slot, saved, w, m, true);
    SourcesEnd(t, body, v, left, slot, saved, w, m, false);
    m' := AllCopiesRun(t, w, v.sp, v.even, v.odd, slot, v.free, r, phis, body, Again(t, w, junk), m);
    forall q | q in ALL && q !in v.free
      ensures m'.regs[q] == Value(t, Again(t, w, junk), v.cost[q])
    {
      RegsAgain(t, body, v, left, slot, saved, w, junk, m, q);
    }
    forall ref | 0 <= ref < v.cur && v.sp[ref] != 0 && ref !in saved
      ensures SlotHolds(m', v.sp[ref], IsNum(t.ir[ref]), Value(t, Again(t, w, junk), ref))
    {
      SlotsAgain(t, body, v, left, slot, saved, w, junk, m, m', ref);
    }
  }

  /** However often the body is repeated, the code performs exactly the stores of all rounds. */
  lemma {:induction false} LoopRuns(t: Trace, body: seq<MIns>, v: View, left: map<Reg, Ref>, slot: map<Ref, nat>, saved: set<Ref>,
                                   copies: seq<MIns>, r: Reg, w: World, junk: nat -> (nat, Reg) -> Val, n: nat, m: MState)
    requires LoopReady(t, body, v, left, slot, saved) && w.given == map[] && Ends(t, w, v.ending, m)
    requires r in FPR && copies == AllCopies(t, v.free, v.sp, slot, r, t.loop.value.phis)
    ensures var e := Repeat(t, copies + body, w, junk, n, m);
            e.out == AllStores(t, w, junk, n) && Met(t, Round(t, w, junk, n), v.ending, e)
  {
    hide SoundBut, RegsEnd, SlotsEnd, PhisOk, AllCopies;
    if n == 0 {
      FirstMet(t, w, v.ending, m);
    } else {
      LoopRuns(t, body, v, left, slot, saved, copies, r, w, junk, n - 1, m);
      var w0, e0 := Round(t, w, junk, n - 1), Repeat(t, copies + body, w, junk, n - 1, m);
      var e1 := EnterAgain(t, body, v, left, slot, saved, r, w0, junk(n), e0);
      RoundOutput(t, body, v, saved, Round(t, w, junk, n), e1);
    }
  }

  /** Had the left operand of a PHI in a slot stayed in a register that the body does not write, no
      round that changes it could be followed by a right one: the register keeps the old value. */
  lemma UnsyncedBreaks(t: Trace, code: seq<MIns>, v: View, mod: set<Reg>, lefts: set<Ref>, saved: set<Ref>, ref: Ref, r: Reg,
                       w: World, junk: (nat, Reg) -> Val, m: MState, m': MState)
    requires t.loop.Some? && ref < v.cur == t.loop.value.start && ref < |v.rs| && v.rs[ref] == InReg(r) && r < NREGS && r !in mod
    requires ValidView(t, v) && AllTame(t, code, mod, v.sp, v.cur, lefts) && Enters(t, w, v, saved, m)
    requires Sane(m') && m'.regs[r] == Run(code, w, m).regs[r] && Carried(t, w, ref) != Value(t, w, ref)
    ensures !Enters(t, Again(t, w, junk), v, saved, m')
  {
    hide AllTame, Value, SlotsOk;
    assert Placed(v, ref);
    RegKept(t, code, mod, v.sp, v.cur, lefts, w, m, r);
    AgainValue(t, w, junk, ref);
  }

  lemma FirstMet(t: Trace, w: World, ending: Ending, m: MState)
    requires WellFormed(t) && t.loop.Some? && EndingOk(t, ending) && w.given == map[] && Met(t, w, ending, m)
    ensures Met(t, FirstRound(t, w), ending, m)
  {
    hide WellFormed, Value;
    forall r | r in ending.regs
      ensures m.regs[r] == Value(t, FirstRound(t, w), ending.regs[r])
    {
      FirstRoundValue(t, w, ending.regs[r]);
    }
    forall ref | ref in ending.slots
      ensures SlotHolds(m, ending.slots[ref], IsNum(t.ir[ref]), Value(t, FirstRound(t, w), ref))
    {
      FirstRoundValue(t, w, ref);
    }
  }
}
