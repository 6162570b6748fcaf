/** The reverse-order register allocator (luajit/lj_asm.c, and the three-operand shapes of
    luajit/lj_asm_mips.h).  A trace is assembled from its last entry to its first; registers
    are allocated at the last use, given up by emitting the reload that the later code needs,
    and freed at the definition.  Which register is evicted or picked is left open.  A loop is
    assembled like straight code; at the start of its body, registers are shuffled so that it can
    be repeated. */
module RegAlloc {
  import opened RegAllocModel
  import opened RegShuffle
  import opened RegPhi
  import opened RegPressure
  import opened RegLoop

  /** The errors of the source, and one more: where a PHI has a slot, the source may go on with code
      that does not keep it in step. */
  datatype Error = SpillOverflow | BadRegAlloc | NyiPhi | UnsyncedPhi

  datatype Result<+T> = Success(value: T) | Failure(error: Error) {
    predicate IsFailure() { Failure? }
    function PropagateFailure<U>(): Result<U>
      requires Failure?
    {
      Failure(error)
    }
    function Extract(): T
      requires Success?
    {
      value
    }
  }

  /** The part of the state that stays the same while entries are assembled: the registers and slots
      of PHIs, and the code of the loop once it is complete. */
  class PhiState {
    var left: map<Reg, Ref>  // phireg, for the registers in phiset
    var slot: map<Ref, nat>  // ir->s of a PHI, by its left operand
    var body: seq<MIns>      // where the loop is entered from above, to mctop
    var copies: seq<MIns>    // from mcloop to the body
    ghost var ending: Ending // what the code has to leave behind
    ghost var live: set<Ref> // what may be in registers

    constructor ()
      ensures left == map[] && slot == map[] && body == copies == [] && ending == Ending(map[], map[]) && live == {}
    {
      left, slot, body, copies, ending, live := map[], map[], [], [], Ending(map[], map[]), {};
    }
  }

  class AsmState {
    const t: Trace
    const dce: bool          // JIT_F_OPT_DCE
    const phi: PhiState
    var freeset: set<Reg>
    var modset: set<Reg>
    var cost: seq<Ref>       // owner of each allocated register
    var rs: seq<RState>      // ir->r
    var sp: seq<nat>         // ir->s
    var evenspill: nat
    var oddspill: nat
    var code: seq<MIns>      // emitted code, from mcp to mctop
    ghost var cur: nat       // entries executed before the first instruction of `code`

    ghost function Now(): View
      reads this, phi
    {
      View(freeset, cost, rs, sp, evenspill, oddspill, cur, phi.ending)
    }

    /** `modset` has every register that the code writes. */
    ghost predicate Tracked()
      reads this, phi
    {
      Tracks(t, code, phi.body, modset, sp, cur, phi.left.Values, phi.ending)
    }

    ghost predicate Sized()
      reads this
    {
      |cost| == NREGS && |rs| == |sp| == |t.ir| && cur <= |t.ir| && freeset <= ALL && WellFormed(t)
    }

    /** The state is consistent and the code so far is right. */
    ghost predicate Valid(p: Option<Pending>)
      reads this, phi
    {
      Sized() && ValidView(t, Now()) && PendingOk(t, p) && Sound(t, code, Now(), p) &&
      evenspill <= SPS_FIRST + 2 * |Spilled(sp)| && Tracked() && Supplied(t, Now(), phi.live)
    }

    /** ref has a register, or may get one of `allow`. */
    ghost predicate Due(ref: Ref, allow: set<Reg>)
      reads this, phi
    {
      |cost| == NREGS && ref < |rs| && (!rs[ref].InReg? ==> ref in phi.live && Available(t, Now(), allow))
    }

    lemma OwnerOf(r: Reg, p: Option<Pending>)
      requires Valid(p) && r in ALL && r !in freeset
      ensures cost[r] < cur && rs[cost[r]] == InReg(r) && r in ClassOf(t.ir[cost[r]]) && !t.ir[cost[r]].XStore?
    {
      assert Owned(t, Now(), r);
    }

    lemma RegisterOf(ref: Ref, p: Option<Pending>)
      requires Valid(p) && ref < cur && rs[ref].InReg?
      ensures rs[ref].reg in ALL && rs[ref].reg !in freeset && cost[rs[ref].reg] == ref
      ensures rs[ref].reg in ClassOf(t.ir[ref]) && !t.ir[ref].XStore?
    {
      assert Placed(Now(), ref) && Owned(t, Now(), rs[ref].reg);
    }

    lemma SlotsNow(p: Option<Pending>)
      requires Valid(p)
      ensures SlotsOk(t, sp, evenspill, oddspill)
    {}

    lemma Saveable(d: Reg, ref: Ref)
      requires ref < |sp| == |t.ir| && (cur <= ref || ref in phi.left.Values) && sp[ref] != 0
      ensures Tame(t, SpStore(d, sp[ref], IsNum(t.ir[ref])), modset, sp, cur, phi.left.Values)
    {
      assert SavesIn(t, sp, cur, phi.left.Values, ref, sp[ref], IsNum(t.ir[ref]));
    }

    /** More registers are modified, more slots are in use, or fewer entries have been executed. */
    lemma Grown(mod: set<Reg>, sp': seq<nat>, cur': nat)
      requires modset <= mod && mod - modset <= ALL && cur' <= cur && |sp'| == |sp| && Tracked()
      requires forall ref :: 0 <= ref < |sp| && sp[ref] != 0 ==> sp'[ref] == sp[ref]
      ensures Tracks(t, code, phi.body, mod, sp', cur', phi.left.Values, phi.ending)
    {
      TracksGrow(t, code, phi.body, modset, sp, cur, mod, sp', cur', phi.left.Values, phi.left.Values, phi.ending);
    }

    /** Entry i is being assembled. */
    ghost predicate Entry(i: Ref)
      reads this, phi
    {
      t.first <= i < |t.ir| && i <= cur <= i + 1 && phi.live == Live(t, i)
    }

    /** An operand of the entry, or the entry itself, gets a register other than `hole`, if that is none, belongs
        to another reference, or is the entry's destination. */
    lemma DueNow(ref: Ref, allow: set<Reg>, i: Ref, hole: Reg, p: Option<Pending>)
      requires Valid(p) && Entry(i) && ref < cur && !t.ir[ref].XStore? && (ref == i || ref in Operands(t, i))
      requires allow == ClassOf(t.ir[ref]) - {hole} || (hole == RID_ZERO && allow == ClassOf(t.ir[ref]))
      requires hole in freeset ==> cur == i && hole in ClassOf(t.ir[i]) && !t.ir[i].XStore?
      ensures Due(ref, allow)
    {
      hide Sound, SlotsOk, Spilled, Tame, Tracks, ValidView, Supplied, Live, Available;
      EnoughRegisters();
      if !rs[ref].InReg? {
        if ref == i { LiveSelf(t, i); } else { OperandLive(t, i, ref); }
        Pressed(t, Now(), phi.live, i, ref, hole);
        assert ClassOf(t.ir[ref]) - {RID_ZERO} == ClassOf(t.ir[ref]);
      }
    }

    /** A free register. */
    lemma DueFree(ref: Ref, allow: set<Reg>)
      requires |cost| == NREGS && ref < |rs| && ref in phi.live && (allow * freeset != {} || rs[ref].InReg?)
      ensures Due(ref, allow)
    {}

    /** From now on these references may be in registers. */
    method SetLive(ghost live: set<Ref>)
      requires Valid(None) && forall r :: r in ALL && r !in freeset ==> cost[r] in live
      modifies phi`live
      ensures phi.live == live && Valid(None)
    {
      hide Sound, SlotsOk, Spilled, Tame, Tracks, ValidView;
      phi.live := live;
    }

    /** `asm_setup_regsp`: all registers free, any register hints. */
    constructor (t: Trace, dce: bool, hints: seq<RState>)
      requires WellFormed(t) && |hints| == |t.ir| && forall h :: h in hints ==> !h.InReg?
      ensures this.t == t && this.dce == dce && cur == |t.ir| && Valid(None) && fresh(phi)
      ensures freeset == ALL && modset == {} && code == [] && rs == hints && (forall s :: s in sp ==> s == 0)
      ensures phi.left == map[] && phi.slot == map[] && phi.body == [] && phi.ending == Ending(map[], map[])
      ensures phi.live == {}
    {
      this.t, this.dce := t, dce;
      phi := new PhiState();
      freeset, modset := ALL, {};
      cost := seq(NREGS, _ => 0);
      rs := hints;
      sp := seq(|t.ir|, _ => 0);
      evenspill, oddspill, code, cur := SPS_FIRST, 0, [], |t.ir|;
      new;
      forall a | 0 <= a < cur
        ensures Placed(Now(), a)
      {
        assert rs[a] in hints;
      }
    }

    predicate Used(ref: Ref)
      reads this
      requires ref < |rs| == |sp|
    {
      rs[ref].InReg? || sp[ref] != 0
    }

    lemma Writable(ins: MIns)
      requires !ins.SpStore? && Writes(ins) <= modset
      ensures Tame(t, ins, modset, sp, cur, phi.left.Values)
    {}

    method Emit(ins: MIns)
      requires Tracked() && Tame(t, ins, modset, sp, cur, phi.left.Values)
      modifies this`code
      ensures code == [ins] + old(code) && Tracked()
    {
      TracksEmit(t, ins, code, phi.body, modset, sp, cur, phi.left.Values, phi.ending);
      code := [ins] + code;
    }

    /** `ra_rematk`. */
    method Rematk(ref: Ref, ghost p: Option<Pending>) returns (r: Reg)
      requires Valid(p) && ref < t.first && ref < cur && rs[ref].InReg? && !IsPending(p, rs[ref].reg)
      modifies this
      ensures Valid(p) && r == old(rs)[ref].reg && Gave(old(Now()), Now(), ref, r) && sp == old(sp)
      ensures modset == old(modset) + {r}
    {
      hide Supplied, Sound, SlotsOk, Spilled, Tame, Tracks, ValidView;
      r := rs[ref].reg;
      var state := if t.ir[ref].Base? then Hint(16) else NoReg;
      RegisterOf(ref, p);
      ghost var v := Now();
      RematSound(t, code, v, p, ref, r, state);
      Grown(modset + {r}, sp, cur);
      freeset, modset := freeset + {r}, modset + {r};
      rs := rs[ref := state];
      SuppliedSame(t, v, Now(), phi.live);
      Writable(Remat(t, ref, r));
      Emit(Remat(t, ref, r));
    }

    /** `ra_spill`. */
    method Spill(ref: Ref, ghost p: Option<Pending>) returns (res: Result<nat>)
      requires Valid(p) && t.first <= ref < cur && !t.ir[ref].XStore? && ref in MaySpill(t)
      modifies this`sp, this`evenspill, this`oddspill
      ensures res.Failure? ==> res.error == SpillOverflow && Overflows(t)
      ensures res.Success? ==> Valid(p) && sp[ref] == res.value != 0
      ensures |sp| == |old(sp)|
      ensures forall a :: 0 <= a < |sp| && a != ref ==> sp[a] == old(sp)[a]
    {
      hide Supplied, MaySpill, Sound, SlotsOk, Spilled, Tame, Tracks, ValidView;
      var slot := sp[ref];
      if slot == 0 {
        SlotsNow(p);
        ghost var v := Now();
        if IsNum(t.ir[ref]) {
          slot := evenspill;
          evenspill := evenspill + 2;
        } else if oddspill != 0 {
          slot := oddspill;
          oddspill := 0;
        } else {
          slot := evenspill;
          oddspill := slot + 1;
          evenspill := evenspill + 2;
        }
        if evenspill > NSLOTS {
          SuppliedSlots(t, v, phi.live);
          assert Exhausted(t, code, v, p, ref);
          return Failure(SpillOverflow);
        }
        FreshSlot(t, sp, v.even, v.odd, ref, slot, evenspill, oddspill);
        SlotSound(t, code, v, p, ref, slot, evenspill, oddspill);
        OneSpilled(sp, ref, slot);
        Grown(modset, sp[ref := slot], cur);
        sp := sp[ref := slot];
        SuppliedSpilled(t, v, Now(), phi.live, ref, slot);
      }
      return Success(slot);
    }

    /** `ra_restore`: rematerialize, or force a spill and reload. */
    method Restore(ref: Ref, ghost p: Option<Pending>) returns (res: Result<Reg>)
      requires Valid(p) && ref < cur && rs[ref].InReg? && !IsPending(p, rs[ref].reg) && (ref < t.first || ref in MaySpill(t))
      modifies this
      ensures res.Failure? ==> res.error == SpillOverflow && Overflows(t)
      ensures res.Success? ==>
                Valid(p) && res.value == old(rs)[ref].reg && Gave(old(Now()), Now(), ref, res.value)
      ensures |sp| == |old(sp)| && old(modset) <= modset <= old(modset) + {old(rs)[ref].reg}
      ensures forall a :: 0 <= a < |sp| && a != ref ==> sp[a] == old(sp)[a]
    {
      hide Supplied, MaySpill, Sound, SlotsOk, Spilled, Tame, Tracks, ValidView;
      if ref < t.first {
        var r := Rematk(ref, p);
        return Success(r);
      }
      var r := rs[ref].reg;
      RegisterOf(ref, p);
      var slot :- Spill(ref, p);
      ghost var v := Now();
      RestoreSound(t, code, v, p, ref, r);
      Grown(modset + {r}, sp, cur);
      rs := rs[ref := Hint(r)];
      freeset, modset := freeset + {r}, modset + {r};
      SuppliedSame(t, v, Now(), phi.live);
      Writable(SpLoad(r, slot, IsNum(t.ir[ref])));
      Emit(SpLoad(r, slot, IsNum(t.ir[ref])));
      return Success(r);
    }

    /** `ra_evict`: gives up some allocated register of `allow`. */
    method Evict(allow: set<Reg>, ghost p: Option<Pending>) returns (res: Result<Reg>)
      requires Valid(p) && allow <= ALL && allow != {} && allow !! freeset && GivenUp(t, Now(), allow)
      requires p.Some? ==> p.value.reg !in allow
      modifies this
      ensures res.Failure? ==> res.error == SpillOverflow && Overflows(t)
      ensures old(modset) <= modset
      ensures res.Success? ==> Valid(p) && res.value in allow && res.value in freeset
      ensures res.Success? ==> SameOutside(old(Now()), Now(), allow) && old(freeset) <= freeset
      ensures res.Success? ==> OthersKept(old(Now()), Now())
    {
      hide Sound, SlotsOk, Spilled, Tame, Tracks, ValidView;
      var r :| r in allow;
      OwnerOf(r, p);
      res := Restore(cost[r], p);
    }

    /** `ra_pick`: a free register of `allow`, evicting if there is none. */
    method Pick(allow: set<Reg>, ghost p: Option<Pending>) returns (res: Result<Reg>)
      requires Valid(p) && allow <= ALL && allow != {} && Available(t, Now(), allow)
      requires p.Some? && p.value.reg in allow ==> p.value.reg in freeset
      modifies this
      ensures res.Failure? ==> res.error == SpillOverflow && Overflows(t)
      ensures old(modset) <= modset
      ensures res.Success? ==> Valid(p) && res.value in allow && res.value in freeset
      ensures res.Success? ==> SameOutside(old(Now()), Now(), allow) && old(freeset) <= freeset
      ensures allow <= old(freeset) ==> res.Success? && code == old(code) && modset == old(modset) && Now() == old(Now())
      ensures res.Success? ==> OthersKept(old(Now()), Now())
    {
      hide Sound, SlotsOk, Spilled, Tame, Tracks, ValidView;
      var pick := freeset * allow;
      if pick == {} {
        assert forall r :: r in allow ==> r !in freeset || r in pick;
        res := Evict(allow, p);
      } else {
        var r :| r in pick;
        res := Success(r);
      }
    }

    /** The first part of `ra_allocref`: a free register of `allow`, preferring the hint of ref. */
    method PickHinted(ref: Ref, allow: set<Reg>, ghost p: Option<Pending>) returns (res: Result<Reg>)
      requires Valid(p) && ref < cur && !rs[ref].InReg? && allow <= ALL && allow != {} && Available(t, Now(), allow)
      requires p.Some? && p.value.reg in allow ==> p.value.reg in freeset
      modifies this
      ensures res.Failure? ==> res.error == SpillOverflow && Overflows(t)
      ensures old(modset) <= modset
      ensures res.Success? ==> Valid(p) && res.value in allow && res.value in freeset
      ensures res.Success? ==> SameOutside(old(Now()), Now(), allow) && old(freeset) <= freeset
      ensures allow <= old(freeset) ==> res.Success? && code == old(code) && modset == old(modset) && Now() == old(Now())
      ensures res.Success? ==> OthersKept(old(Now()), Now())
    {
      hide Sound, SlotsOk, Spilled, Tame, Tracks, ValidView;
      var pick := freeset * allow;
      if pick != {} && rs[ref].Hint? {
        var r := rs[ref].hint;
        if r in pick { return Success(r); }
        if r in allow && cost[r] < t.first {
          // Rematerialization is cheaper than missing a hint.
          assert r !in freeset;
          OwnerOf(r, p);
          var _ := Rematk(cost[r], p);
          return Success(r);
        }
      }
      res := Pick(allow, p);
    }

    /** `ra_allocref`: allocates a register of `allow` for ref. */
    method AllocRef(ref: Ref, allow: set<Reg>, ghost p: Option<Pending>) returns (res: Result<Reg>)
      requires Valid(p) && ref < cur && !rs[ref].InReg? && !t.ir[ref].XStore? && Due(ref, allow)
      requires allow != {} && allow <= ClassOf(t.ir[ref])
      requires p.Some? && p.value.reg in allow ==> p.value.reg in freeset
      modifies this
      ensures res.Failure? ==> res.error == SpillOverflow && Overflows(t)
      ensures old(modset) <= modset
      ensures res.Success? ==> Valid(p) && res.value in allow && rs[ref] == InReg(res.value)
      ensures res.Success? ==> Has(t, Now(), ref, res.value)
      ensures res.Success? ==> SameOutside(old(Now()), Now(), allow) && old(freeset) - {res.value} <= freeset
      ensures res.Success? ==> forall a :: 0 <= a < |rs| && a != ref && !old(rs)[a].InReg? ==> rs[a] == old(rs)[a] && sp[a] == old(sp)[a]
      ensures allow <= old(freeset) ==>
                res.Success? && code == old(code) && modset == old(modset) && Now() == Assigned(old(Now()), ref, res.value)
    {
      hide Sound, SlotsOk, Spilled, Tame, Tracks, ValidView, Supplied, MaySpill, Available;
      var r :- PickHinted(ref, allow, p);
      SuppliedAssigned(t, Now(), phi.live, ref, r);
      AssignSound(t, code, Now(), p, ref, r);
      rs := rs[ref := InReg(r)];
      freeset := freeset - {r};
      cost := cost[r := ref];
      return Success(r);
    }

    /** `ra_alloc1`: the register ref already has, or a new one of `allow`. */
    method Alloc1(ref: Ref, allow: set<Reg>, ghost p: Option<Pending>) returns (res: Result<Reg>)
      requires Valid(p) && ref < cur && !t.ir[ref].XStore? && Due(ref, allow)
      requires allow != {} && allow <= ClassOf(t.ir[ref])
      requires p.Some? && p.value.reg in allow ==> p.value.reg in freeset
      modifies this
      ensures res.Failure? ==> res.error == SpillOverflow && Overflows(t)
      ensures old(modset) <= modset
      ensures res.Success? ==> Valid(p) && Has(t, Now(), ref, res.value) && res.value != RID_ZERO
      ensures res.Success? ==> SameOutside(old(Now()), Now(), allow) && old(freeset) - {res.value} <= freeset
      ensures res.Success? ==> forall a :: 0 <= a < |rs| && a != ref && !old(rs)[a].InReg? ==> rs[a] == old(rs)[a] && sp[a] == old(sp)[a]
      ensures res.Success? && !old(rs)[ref].InReg? ==> res.value in allow
      ensures old(rs)[ref].InReg? || allow <= old(freeset) ==>
                res.Success? && code == old(code) && modset == old(modset) &&
                Now() == if old(rs)[ref].InReg? then old(Now()) else Assigned(old(Now()), ref, res.value)
    {
      hide Supplied, Available, Live, Sound, SlotsOk, Spilled, Tame, Tracks, ValidView;
      if rs[ref].InReg? {
        RegisterOf(ref, p);
        return Success(rs[ref].reg);
      }
      res := AllocRef(ref, allow, p);
    }

    /** `ra_hintalloc`: as `ra_alloc1`, but propagates a hint to a reference that has none. */
    method HintAlloc(ref: Ref, hint: Reg, allow: set<Reg>, ghost p: Option<Pending>) returns (res: Result<Reg>)
      requires Valid(p) && ref < cur && !t.ir[ref].XStore? && Due(ref, allow)
      requires allow != {} && allow <= ClassOf(t.ir[ref])
      requires p.Some? && p.value.reg in allow ==> p.value.reg in freeset
      modifies this
      ensures res.Failure? ==> res.error == SpillOverflow && Overflows(t)
      ensures old(modset) <= modset
      ensures res.Success? ==> Valid(p) && Has(t, Now(), ref, res.value) && res.value != RID_ZERO
      ensures res.Success? ==> SameOutside(old(Now()), Now(), allow) && old(freeset) - {res.value} <= freeset
    {
      hide Sound, SlotsOk, Spilled, Tame, Tracks, ValidView;
      if rs[ref].InReg? {
        RegisterOf(ref, p);
        return Success(rs[ref].reg);
      }
      if rs[ref].NoReg? {
        HintSound(t, code, Now(), p, ref, hint);
        rs := rs[ref := Hint(hint)];
      }
      res := AllocRef(ref, allow, p);
    }

    /** `ra_alloc1z`: as `ra_alloc1`, but the zero register serves for an integer zero. */
    method Alloc1z(ref: Ref, allow: set<Reg>, ghost p: Option<Pending>) returns (res: Result<Reg>)
      requires Valid(p) && ref < cur && !t.ir[ref].XStore? && Due(ref, allow)
      requires allow != {} && allow <= ClassOf(t.ir[ref])
      requires p.Some? && p.value.reg in allow ==> p.value.reg in freeset
      modifies this
      ensures res.Failure? ==> res.error == SpillOverflow && Overflows(t)
      ensures old(modset) <= modset
      ensures res.Success? ==> Valid(p) && Has(t, Now(), ref, res.value)
      ensures res.Success? ==> SameOutside(old(Now()), Now(), allow) && old(freeset) - {res.value} <= freeset
    {
      hide Supplied, Available, Sound, SlotsOk, Spilled, Tame, Tracks, ValidView;
      if !rs[ref].InReg? && allow !! FPR && t.ir[ref] == KInt(0) { return Success(RID_ZERO); }
      res := Alloc1(ref, allow, p);
    }

    /** `ra_alloc2`: two operand registers; allocating the second keeps the first. */
    method Alloc2(op1: Ref, op2: Ref, ghost i: Ref, ghost p: Option<Pending>) returns (res: Result<(Reg, Reg)>)
      requires Valid(p) && op1 < cur && op2 < cur && !t.ir[op1].XStore? && !t.ir[op2].XStore?
      requires ClassOf(t.ir[op1]) == ClassOf(t.ir[op2]) && Entry(i) && op1 in Operands(t, i) && op2 in Operands(t, i) && op1 < i && op2 < i
      requires p.Some? && p.value.reg in ClassOf(t.ir[op1]) ==> p.value.reg in freeset
      modifies this
      ensures res.Failure? ==> res.error == SpillOverflow && Overflows(t)
      ensures old(modset) <= modset
      ensures res.Success? ==> Valid(p) && cur == old(cur)
      ensures res.Success? ==> Has(t, Now(), op1, res.value.0) && Has(t, Now(), op2, res.value.1)
    {
      hide Supplied, Available, Live, Sound, SlotsOk, Spilled, Tame, Tracks, ValidView;
      var allow := ClassOf(t.ir[op1]);
      EnoughRegisters();
      var left, right;
      if !rs[op1].InReg? && (rs[op2].InReg? || rs[op2].Hint?) {
        DueNow(op2, allow, i, RID_ZERO, p);
        right :- Alloc1z(op2, allow, p);
        assert GPR - {right} != {} && FPR - {right} != {};
        DueNow(op1, allow - {right}, i, right, p);
        left :- Alloc1z(op1, allow - {right}, p);
      } else {
        DueNow(op1, allow, i, RID_ZERO, p);
        left :- Alloc1z(op1, allow, p);
        assert GPR - {left} != {} && FPR - {left} != {};
        DueNow(op2, allow - {left}, i, left, p);
        right :- Alloc1z(op2, allow - {left}, p);
      }
      return Success((left, right));
    }

    /** `ra_dest`: frees the register of entry i, which its value is now pending in, and saves
        the value if later code expects it in a slot. */
    method Dest(i: Ref, allow: set<Reg>) returns (res: Result<Reg>)
      requires Valid(None) && cur == i + 1 && !t.ir[i].XStore? && allow != {} && allow <= ClassOf(t.ir[i]) && Due(i, allow)
      modifies this
      ensures res.Failure? ==> res.error == SpillOverflow && Overflows(t)
      ensures old(modset) <= modset
      ensures res.Success? ==> cur == i && Valid(Some(Pending(res.value, i)))
      ensures res.Success? ==> res.value in freeset * modset && res.value in ClassOf(t.ir[i]) && old(freeset) <= freeset
      ensures res.Success? && old(rs)[i].InReg? ==> old(rs)[i].reg in freeset * modset
    {
      hide Sound, SlotsOk, Spilled, Tame, Tracks, ValidView;
      var dest: Reg;
      if rs[i].InReg? {
        dest := rs[i].reg;
        RegisterOf(i, None);
      } else if rs[i].Hint? && rs[i].hint in freeset * allow {
        dest := rs[i].hint;
      } else {
        dest :- Pick(allow, None);
      }
      Define(i, dest);
      return Success(dest);
    }

    /** The rest of `ra_dest`, once the register is known. */
    method Define(i: Ref, dest: Reg)
      requires Valid(None) && cur == i + 1 && !t.ir[i].XStore? && dest in ALL
      requires rs[i] == InReg(dest) || (!rs[i].InReg? && dest in freeset)
      modifies this
      ensures cur == i && Valid(Some(Pending(dest, i))) && freeset == old(freeset) + {dest} && modset == old(modset) + {dest}
    {
      hide Supplied, Sound, SlotsOk, Spilled, Tame, Tracks, ValidView;
      ghost var v := Now();
      DefineSound(t, code, v, i, dest);
      Grown(modset + {dest}, sp, i);
      freeset, modset := freeset + {dest}, modset + {dest};
      rs := rs[i := InReg(dest)];
      cur := i;
      SuppliedSame(t, v, Now(), phi.live);
      if sp[i] != 0 {
        Saveable(dest, i);
        Emit(SpStore(dest, sp[i], IsNum(t.ir[i])));
      }
    }

    /** `ra_destreg`: as `ra_dest`, with the value arriving in register r. */
    method DestReg(i: Ref, r: Reg) returns (res: Result<()>)
      requires Valid(None) && cur == i + 1 && !t.ir[i].XStore? && r in ClassOf(t.ir[i])
      requires (r in freeset || rs[i] == InReg(r)) && i in phi.live
      modifies this
      ensures res.Failure? ==> res.error == SpillOverflow && Overflows(t)
      ensures old(modset) <= modset
      ensures res.Success? ==> cur == i && Valid(Some(Pending(r, i))) && old(freeset) <= freeset
      ensures res.Success? && old(rs)[i].InReg? ==> old(rs)[i].reg in freeset * modset
    {
      hide Supplied, Available, Live, Sound, SlotsOk, Spilled, Tame, Tracks, ValidView;
      assert r in freeset ==> r in {r} * freeset;
      DueFree(i, {r});
      var dest :- Dest(i, {r});
      if dest != r {
        Grown(modset + {r}, sp, cur);
        modset := modset + {r};
        MoveSound(t, code, Now(), dest, r, i);
        Writable(Mov(dest, r));
        Emit(Mov(dest, r));
      }
      return Success(());
    }

    /** `ra_evictset`: gives up all registers of a set. */
    method EvictSet(drop: set<Reg>) returns (res: Result<()>)
      requires Valid(None) && drop <= ALL && GivenUp(t, Now(), drop)
      modifies this
      ensures res.Failure? ==> res.error == SpillOverflow && Overflows(t)
      ensures old(modset) <= modset
      ensures res.Success? ==> Valid(None) && cur == old(cur) && drop <= freeset && drop <= modset && old(freeset) <= freeset
      ensures res.Success? ==> forall a :: 0 <= a < |rs| && (old(rs)[a].InReg? ==> old(rs)[a].reg !in drop) ==>
                rs[a] == old(rs)[a]
    {
      hide Sound, SlotsOk, Spilled, Tame, Tracks, ValidView;
      Grown(modset + drop, sp, cur);
      modset := modset + drop;
      var work := drop - freeset;
      while work != {}
        invariant Valid(None) && cur == old(cur) && |rs| == |old(rs)| && old(modset) + drop <= modset
        invariant work <= ALL && work !! freeset && drop <= freeset + work && old(freeset) <= freeset
        invariant work <= drop && GivenUp(t, Now(), work)
        invariant forall a :: 0 <= a < |rs| && (old(rs)[a].InReg? ==> old(rs)[a].reg !in drop) ==> rs[a] == old(rs)[a]
      {
        var r :| r in work;
        OwnerOf(r, None);
        var _ :- Restore(cost[r], None);
        work := work - {r};
      }
      return Success(());
    }

    /** `ra_rename`: reference ref moves from register down to the free register up. */
    method Rename(ref: Ref, down: Reg, up: Reg)
      requires ref < |rs| && up < |cost| && rs[ref] == InReg(down) && down in ALL && Tracked()
      modifies this`freeset, this`modset, this`cost, this`rs, this`code
      ensures Now() == Renamed(old(Now()), ref, down, up) && code == [Mov(down, up)] + old(code)
      ensures modset == old(modset) + {down} && Tracked()
    {
      Grown(modset + {down}, sp, cur);
      cost := cost[up := ref];
      rs := rs[ref := InReg(up)];
      freeset := freeset + {down} - {up};
      modset := modset + {down};
      Writable(Mov(down, up));
      Emit(Mov(down, up));
    }

    /** `ra_leftov`: brings ref into register dest, where the code expects it. */
    method LeftOv(dest: Reg, ref: Ref) returns (res: Result<()>)
      requires Valid(Some(Pending(dest, ref))) && ref < cur && !t.ir[ref].XStore?
      requires dest in ClassOf(t.ir[ref]) && dest in freeset * modset && Due(ref, ClassOf(t.ir[ref]))
      modifies this
      ensures res.Failure? ==> res.error == SpillOverflow && Overflows(t)
      ensures res.Success? ==> cur == old(cur) && Valid(None)
    {
      ghost var p := Some(Pending(dest, ref));
      if !rs[ref].InReg? {
        HintSound(t, code, Now(), p, ref, dest);
        rs := rs[ref := Hint(dest)];
        var _ :- AllocRef(ref, ClassOf(t.ir[ref]), p);
      }
      RegisterOf(ref, p);
      res := Join(dest, ref);
    }

    /** The rest of `ra_leftov`, once ref has a register. */
    method Join(dest: Reg, ref: Ref) returns (res: Result<()>)
      requires Valid(Some(Pending(dest, ref))) && ref < cur && rs[ref].InReg?
      requires dest in ClassOf(t.ir[ref]) && dest in modset && (dest in freeset || rs[ref].reg == dest)
      modifies this
      ensures res.Success? && cur == old(cur) && Valid(None) && old(modset) <= modset
    {
      hide Supplied, Sound, SlotsOk, Spilled, Tame, Tracks, ValidView;
      RegisterOf(ref, Some(Pending(dest, ref)));
      var left := rs[ref].reg;
      if left != dest && dest in phi.left && phi.left[dest] == ref {
        // Use register renaming if dest is the PHI register.
        RenamePendingSound(t, code, Now(), ref, left, dest);
        SuppliedRenamed(t, Now(), phi.live, ref, left, dest);
        Rename(ref, left, dest);
      } else {
        LeftOvSound(t, code, Now(), dest, left, ref);
        Writable(Mov(dest, left));
        if left != dest { Emit(Mov(dest, left)); }
      }
      return Success(());
    }

    // -------------------------------------------------------------- instructions

    /** The instruction that computes the pending value of entry i. */
    method Compute(i: Ref, dest: Reg, ins: MIns)
      requires i < |t.ir| && dest in ALL && !ins.SpStore? && Writes(ins) <= modset && Valid(Some(Pending(dest, i)))
      requires forall w: World, at: nat, m: MState :: Holds(t, w, Now(), None, m) ==>
                 Step(ins, w, at, m) == Set(m, dest, Value(t, w, i))
      modifies this`code
      ensures Valid(None)
    {
      hide Sound, SlotsOk, Spilled, Tame, Tracks, Step, Value;
      OpSound(t, code, Now(), dest, i, ins);
      Writable(ins);
      Emit(ins);
    }

    /** `asm_add` for integers. */
    method AsmAdd(i: Ref) returns (res: Result<()>)
      requires Valid(None) && cur == i + 1 && t.ir[i].Add? && Entry(i)
      modifies this
      ensures res.Failure? ==> res.error == SpillOverflow && Overflows(t)
      ensures res.Success? ==> cur == i && Valid(None) && Entry(i)
    {
      hide Supplied, Available, Live, Sound, SlotsOk, Spilled, Tame, Tracks, ValidView;
      assert EntryOk(t, i);
      EnoughRegisters();
      var op1, op2 := t.ir[i].op1, t.ir[i].op2;
      DueNow(i, GPR, i, RID_ZERO, None);
      var dest :- Dest(i, GPR);
      ghost var p := Some(Pending(dest, i));
      DueNow(op1, GPR, i, RID_ZERO, p);
      var left :- HintAlloc(op1, dest, GPR, p);
      if op2 < t.first && FitsI16(t.ir[op2].k) {
        AddIValue(t, Now(), i, dest, left);
        Compute(i, dest, AddIU(dest, left, t.ir[op2].k));
      } else {
        DueNow(op2, GPR - {left}, i, left, p);
        var right :- Alloc1(op2, GPR - {left}, p);
        OpValue(t, Now(), i, dest, left, right, AddU(dest, left, right));
        Compute(i, dest, AddU(dest, left, right));
      }
      return Success(());
    }

    /** `asm_sub` for integers and `asm_fparith`: the plain three-operand shape. */
    method AsmOp(i: Ref) returns (res: Result<()>)
      requires Valid(None) && cur == i + 1 && (t.ir[i].Sub? || t.ir[i].FArith?) && Entry(i)
      modifies this
      ensures res.Failure? ==> res.error == SpillOverflow && Overflows(t)
      ensures res.Success? ==> cur == i && Valid(None) && Entry(i)
    {
      hide Supplied, Available, Live, Sound, SlotsOk, Spilled, Tame, Tracks, ValidView;
      assert EntryOk(t, i);
      EnoughRegisters();
      DueNow(i, ClassOf(t.ir[i]), i, RID_ZERO, None);
      var dest :- Dest(i, ClassOf(t.ir[i]));
      var lr :- Alloc2(t.ir[i].op1, t.ir[i].op2, i, Some(Pending(dest, i)));
      var ins := if t.ir[i].Sub? then SubU(dest, lr.0, lr.1) else Fp(t.ir[i].fop, dest, lr.0, lr.1);
      OpValue(t, Now(), i, dest, lr.0, lr.1, ins);
      Compute(i, dest, ins);
      return Success(());
    }

    /** `asm_callround`: a call that clobbers some registers, with fixed argument and result. */
    method AsmCallRound(i: Ref) returns (res: Result<()>)
      requires Valid(None) && cur == i + 1 && t.ir[i].Round? && i >= t.first && phi.live <= Behind(t, i)
      modifies this, phi`live
      ensures res.Failure? ==> res.error == SpillOverflow && Overflows(t)
      ensures res.Success? ==> cur == i && Valid(None) && Entry(i)
    {
      hide Supplied, Available, GivenUp, Behind, Live, Sound, SlotsOk, Spilled, Tame, Tracks, ValidView;
      assert EntryOk(t, i);
      var drop := ROUND_CLOBBERS;
      if rs[i].InReg? {
        RegisterOf(i, None);
        drop := drop - {rs[i].reg};
      }
      CallGivesUp(t, Now(), phi.live, i, drop);
      var _ :- EvictSet(drop);
      assert drop <= freeset && drop <= modset;
      EnterEntry(i);
      res := Call(i);
    }

    /** The rest of `asm_callround`, once the registers are free. */
    method Call(i: Ref) returns (res: Result<()>)
      requires Valid(None) && cur == i + 1 && t.ir[i].Round? && Entry(i)
      requires forall r :: r in ROUND_CLOBBERS && rs[i] != InReg(r) ==> r in freeset * modset
      modifies this
      ensures res.Failure? ==> res.error == SpillOverflow && Overflows(t)
      ensures res.Success? ==> cur == i && Valid(None) && Entry(i)
    {
      hide Supplied, Available, Live, Sound, SlotsOk, Spilled, Tame, Tracks, ValidView;
      assert EntryOk(t, i);
      LiveSelf(t, i);
      var _ :- DestReg(i, RID_FPRET);
      CallSound(t, code, Now(), i);
      assert ROUND_CLOBBERS <= modset;
      Writable(CallRound);
      Emit(CallRound);
      DueNow(t.ir[i].op1, FPR, i, RID_ZERO, Some(Pending(REGARG_FIRSTFPR, t.ir[i].op1)));
      res := LeftOv(REGARG_FIRSTFPR, t.ir[i].op1);
    }

    /** `asm_sload`, without conversion or type check. */
    method AsmSLoad(i: Ref) returns (res: Result<()>)
      requires Valid(None) && cur == i + 1 && i >= t.first && t.ir[i].SLoad? && Entry(i)
      modifies this
      ensures res.Failure? ==> res.error == SpillOverflow && Overflows(t)
      ensures res.Success? ==> cur == i && Valid(None) && Entry(i)
    {
      hide Supplied, Available, MaySpill, Live, Waiting, Sound, SlotsOk, Spilled, Tame, Tracks, ValidView;
      EnoughRegisters();
      var base := t.first - 1;
      if Used(i) {
        DueNow(i, ClassOf(t.ir[i]), i, RID_ZERO, None);
        var dest :- Dest(i, ClassOf(t.ir[i]));
        DueNow(base, GPR - {dest}, i, dest, Some(Pending(dest, i)));
        var b :- Alloc1(base, GPR - {dest}, Some(Pending(dest, i)));
        var ins := LoadStack(dest, b, t.ir[i].slot);
        LoadValue(t, Now(), i, dest, b);
        Compute(i, dest, ins);
      } else {
        DueNow(base, GPR, i, RID_ZERO, None);
        var _ :- Alloc1(base, GPR, None);
        SkipSound(t, code, Now(), i);
        Grown(modset, sp, i);
        ghost var v := Now();
        cur := i;
        SuppliedSame(t, v, Now(), phi.live);
      }
      return Success(());
    }

    /** `asm_xstore` with an unfused address. */
    method AsmXStore(i: Ref) returns (res: Result<()>)
      requires Valid(None) && cur == i + 1 && i >= t.first && t.ir[i].XStore? && Entry(i)
      modifies this
      ensures res.Failure? ==> res.error == SpillOverflow && Overflows(t)
      ensures res.Success? ==> cur == i && Valid(None) && Entry(i)
    {
      hide Supplied, Available, Live, Sound, SlotsOk, Spilled, Tame, Tracks, ValidView;
      assert EntryOk(t, i);
      EnoughRegisters();
      var op1, op2 := t.ir[i].op1, t.ir[i].op2;
      DueNow(op2, ClassOf(t.ir[op2]), i, RID_ZERO, None);
      var src :- Alloc1z(op2, ClassOf(t.ir[op2]), None);
      DueNow(op1, GPR - {src}, i, src, None);
      var b :- Alloc1(op1, GPR - {src}, None);
      Store(i, src, b);
      return Success(());
    }

    /** The rest of `asm_xstore`, once the operands are in registers. */
    method Store(i: Ref, src: Reg, b: Reg)
      requires Valid(None) && cur == i + 1 && i >= t.first && t.ir[i].XStore? && EntryOk(t, i)
      requires Has(t, Now(), t.ir[i].op2, src) && Has(t, Now(), t.ir[i].op1, b)
      modifies this
      ensures cur == i && Valid(None)
    {
      hide Sound, SlotsOk, Spilled, Tame, Tracks, ValidView;
      NeverAllocated(t, Now(), i);
      BackValid(t, Now(), i);
      StoreValues(t, Now().(cur := i), i, src, b);
      StoreSound(t, code, Now(), i, src, b);
      Writable(StoreX(src, b));
      Emit(StoreX(src, b));
      Grown(modset, sp, i);
      cur := i;
    }

    /** The turn of entry i has come. */
    method EnterEntry(ghost i: Ref)
      requires Valid(None) && cur == i + 1 && i >= t.first && phi.live <= Behind(t, i)
      modifies phi`live
      ensures Entry(i) && Valid(None)
    {
      hide Sound, SlotsOk, Spilled, Tame, Tracks, ValidView, Behind, Live;
      BehindLive(t, i);
      InUse(None);
      SetLive(Live(t, i));
    }

    /** Entry i is done. */
    method LeaveEntry(ghost i: Ref)
      requires Valid(None) && cur == i && phi.live <= Live(t, i)
      modifies phi`live
      ensures phi.live == Waiting(t, i) && Valid(None)
    {
      hide Sound, SlotsOk, Spilled, Tame, Tracks, ValidView, Live, Waiting;
      InUse(None);
      forall r | r in ALL && r !in freeset
        ensures cost[r] in Waiting(t, i)
      {
        OwnerOf(r, None);
        AfterEntry(t, i, cost[r]);
      }
      SetLive(Waiting(t, i));
    }

    lemma InUse(p: Option<Pending>)
      requires Valid(p)
      ensures forall r :: r in ALL && r !in freeset ==> cost[r] in phi.live
    {}

    /** `asm_ir`. */
    method AsmIr(i: Ref) returns (res: Result<()>)
      requires Valid(None) && cur == i + 1 && i >= t.first && phi.live <= Behind(t, i)
      modifies this, phi`live
      ensures res.Failure? ==> res.error == SpillOverflow && Overflows(t)
      ensures res.Success? ==> cur == i && Valid(None) && Entry(i)
    {
      hide Behind, Live;
      if !t.ir[i].Round? { EnterEntry(i); }
      match t.ir[i] {
        case SLoad(_, _) => res := AsmSLoad(i);
        case Add(_, _) => res := AsmAdd(i);
        case Round(_) => res := AsmCallRound(i);
        case XStore(_, _) => res := AsmXStore(i);
        case Sub(_, _) => res := AsmOp(i);
        case FArith(_, _, _) => res := AsmOp(i);
        case _ => assert false;
      }
    }

    /** `ra_evictk`: rematerializes all constants still in registers. */
    method Evictk()
      requires Valid(None)
      modifies this
      ensures Valid(None) && cur == old(cur)
      ensures forall r :: r in ALL && r !in freeset ==> cost[r] >= t.first
    {
      hide Sound, SlotsOk, Spilled, Tame, Tracks, ValidView;
      var work := ALL - freeset;
      while work != {}
        invariant Valid(None) && cur == old(cur) && work <= ALL && work !! freeset
        invariant forall r :: r in ALL && r !in freeset && r !in work ==> cost[r] >= t.first
      {
        var r :| r in work;
        OwnerOf(r, None);
        if cost[r] < t.first { var _ := Rematk(cost[r], None); }
        work := work - {r};
      }
    }

    // -------------------------------------------------------------- loops

    /** The PHIs from k on have their registers and slots; nothing else has been assembled yet. */
    ghost predicate Tail(k: nat)
      requires t.loop.Some? && k <= |t.loop.value.phis|
      reads this, phi
    {
      && cur == |t.ir| && ALL - freeset <= phi.left.Keys && modset <= phi.left.Keys && phi.body == []
      && PhisPlaced(t.loop.value.phis[k..], phi.left, phi.slot, phi.ending)
      && Planned(t, t.loop.value.phis[k..], phi.left, rs, sp) && phi.ending.slots.Keys == Spilled(sp)
      && LeftsOk(t, t.loop.value.start, phi.left) && AllTame(t, code, modset, sp, cur, {})
      && phi.live == Waiting(t, |t.ir|) && Valid(None)
    }

    /** The right operand of a PHI gets a register, or a copy in another one. */
    method PlaceRight(right: Ref, allow: set<Reg>) returns (r: Reg)
      requires Valid(None) && right < cur && !t.ir[right].XStore? && AllTame(t, code, modset, sp, cur, {})
      requires allow != {} && allow <= ClassOf(t.ir[right]) && allow <= freeset && allow !! modset && right in phi.live
      modifies this, phi`ending
      ensures r in allow && cur == old(cur) && sp == old(sp) && AllTame(t, code, modset, sp, cur, {}) && Valid(None)
      ensures old(freeset) - {r} <= freeset && modset <= old(modset) + {r} && InRegs(rs) == InRegs(old(rs)) + {right}
      ensures phi.ending == old(phi.ending).(regs := old(phi.ending).regs[r := right])
    {
      hide Supplied, MaySpill, Live, Waiting, Sound, SlotsOk, Spilled, Tame, ValidView, AllTame;
      assert freeset * allow == allow;
      DueFree(right, allow);
      if !rs[right].InReg? {
        var res := AllocRef(right, allow, None);
        r := res.value;
        AllTracked(None);
        RightPlaced(t, code, Now(), modset, phi.left.Values, r);
      } else {
        var res := Pick(allow, None);
        r := res.value;
        RegisterOf(right, None);
        AllTracked(None);
        RightCopied(t, code, Now(), modset, phi.left.Values, r, rs[right].reg);
        Grown(modset + {r}, sp, cur);
        TameGrow(t, code, modset, sp, cur, modset + {r}, sp, cur, {}, {});
        modset := modset + {r};
        Writable(Mov(r, rs[right].reg));
        MoveTame(t, code, Mov(r, rs[right].reg), modset, sp, cur);
        Emit(Mov(r, rs[right].reg));
      }
      ghost var v := Now();
      phi.ending := phi.ending.(regs := phi.ending.regs[r := right]);
      SuppliedSame(t, v, Now(), phi.live);
    }

    lemma AllTracked(p: Option<Pending>)
      requires Valid(p)
      ensures AllTame(t, code, modset, sp, cur, phi.left.Values) && EndingKept(phi.ending, sp) && modset <= ALL
      ensures Tracks(t, code, code, modset, sp, cur, phi.left.Values, phi.ending)
    {}

    /** `asm_phi`: at the end of the body the right operand of a PHI is in a register of its own, with
        one register left that is no PHI register, or in a slot. */
    method AsmPhi(k: nat) returns (res: Result<()>)
      requires t.loop.Some? && k < |t.loop.value.phis| && Tail(k + 1)
      modifies this, phi
      ensures res.Failure? ==> Refusal(res.error)
      ensures res.Success? ==> Tail(k)
    {
      hide Sound, SlotsOk, Tame, Tracks, ValidView, PhisPlaced, LeftsOk, Planned, AllTame, Refused, Spilled, InRegs, SlotDue,
           Refusal;
      NewLeft(t, k);
      var op := t.loop.value.phis[k];
      var allow := ClassOf(t.ir[op.left]) - phi.left.Keys;
      var afree := freeset * allow;
      assert afree == allow;
      if sp[op.left] != 0 || sp[op.right] != 0 || (|afree| < 2 && (rs[op.left].InReg? || rs[op.right].InReg?)) {
        PhiRefused(t, k, phi.left, rs, sp);
        NyiRefusal();
        return Failure(NyiPhi);
      }
      if |afree| < 2 {
        SlotIsDue(t, k, phi.left, rs, sp);
        res := PhiSlot(k);
      } else {
        PhiReg(k, allow);
        res := Success(());
      }
    }

    lemma NyiRefusal()
      requires Refused(t)
      ensures Refusal(NyiPhi)
    {}

    /** One part of `asm_phi`: a register for a PHI. */
    method PhiReg(k: nat, allow: set<Reg>)
      requires t.loop.Some? && k < |t.loop.value.phis| && Tail(k + 1)
      requires var op := t.loop.value.phis[k];
               && op.left < |t.ir| && op.right < |t.ir| == |sp| && sp[op.left] == 0 && sp[op.right] == 0
               && allow == ClassOf(t.ir[op.left]) - phi.left.Keys && |allow| >= 2
      modifies this, phi`ending, phi`left
      ensures Tail(k)
    {
      hide Sound, SlotsOk, Tame, Tracks, ValidView, PhisPlaced, LeftsOk, Planned, AllTame, Spilled, InRegs;
      NewLeft(t, k);
      var op := t.loop.value.phis[k];
      ghost var ending, rs0 := phi.ending, rs;
      assert allow <= freeset;
      RightWaits(t, k);
      var r := PlaceRight(op.right, allow);
      ghost var spare := Another(allow, r);
      RegGiven(t, k, phi.left, rs0, sp, r, rs);
      SetLeft(k, r, spare, ending);
    }

    /** Why PHIs may be refused. */
    ghost predicate Refusal(error: Error) {
      || (error == SpillOverflow && Overflows(t))
      || (error == NyiPhi && Refused(t))
      || (error == UnsyncedPhi && StuckPhi(t))
    }

    /** The rest of `asm_phi`, once the right operand is in its register. */
    method SetLeft(k: nat, r: Reg, ghost spare: Reg, ghost ending: Ending)
      requires t.loop.Some? && k < |t.loop.value.phis| && cur == |t.ir| && phi.body == []
      requires t.loop.value.phis[k].left < |t.ir| && r !in phi.left && r in ClassOf(t.ir[t.loop.value.phis[k].left])
      requires spare !in phi.left && spare != r && spare in ClassOf(t.ir[t.loop.value.phis[k].left])
      requires ALL - freeset <= phi.left.Keys + {r} && modset <= phi.left.Keys + {r}
      requires phi.ending == ending.(regs := ending.regs[r := t.loop.value.phis[k].right])
      requires phi.ending.slots.Keys == Spilled(sp) && t.loop.value.phis[k].left !in Spilled(sp)
      requires PhisPlaced(t.loop.value.phis[k + 1..], phi.left, phi.slot, ending)
      requires Planned(t, t.loop.value.phis[k..], phi.left[r := t.loop.value.phis[k].left], rs, sp)
      requires AllTame(t, code, modset, sp, cur, {}) && LeftsOk(t, t.loop.value.start, phi.left) && Valid(None)
      requires phi.live == Waiting(t, |t.ir|)
      modifies this, phi`left
      ensures Tail(k)
    {
      hide Supplied, Available, MaySpill, Live, Waiting, Sound, SlotsOk, Spilled, Tame, Tracks, ValidView, PhisPlaced,
           LeftsOk, Planned, AllTame;
      NewLeft(t, k);
      ghost var phis := t.loop.value.phis[k..];
      assert phis[1..] == t.loop.value.phis[k + 1..];
      var left := t.loop.value.phis[k].left;
      assert left !in ending.slots.Keys;
      PlacedInReg(phis, phi.left, phi.slot, ending, r);
      LeftsFacts(phis[1..], phi.left, phi.slot, ending);
      LeftsGrown(t, t.loop.value.start, phi.left, left, r, spare);
      ValuesGrow(phi.left, r, left);
      ModsetOk(None);
      TracksGrow(t, code, phi.body, modset, sp, cur, modset, sp, cur, phi.left.Values, phi.left.Values + {left}, phi.ending);
      phi.left := phi.left[r := left];
      if !rs[left].InReg? { SetHint(k, left, r); }
    }

    method SetHint(k: nat, left: Ref, r: Reg)
      requires t.loop.Some? && k < |t.loop.value.phis| && Tail(k) && left < |rs| && !rs[left].InReg?
      modifies this`rs
      ensures Tail(k)
    {
      hide Sound, SlotsOk, Spilled, Tame, Tracks, ValidView, PhisPlaced, LeftsOk, Planned, AllTame;
      HintSound(t, code, Now(), None, left, r);
      HintPlanned(t, t.loop.value.phis[k..], phi.left, rs, sp, left, r);
      rs := rs[left := Hint(r)];
    }

    /** The other part of `asm_phi`: a slot, which the right operand shares. */
    method PhiSlot(k: nat) returns (res: Result<()>)
      requires t.loop.Some? && k < |t.loop.value.phis| && SlotDue(t, t.loop.value.phis[k], phi.left, rs, sp) && Tail(k + 1)
      modifies this`sp, this`evenspill, this`oddspill, phi`slot, phi`ending
      ensures res.Failure? ==> Refusal(res.error)
      ensures res.Success? ==> Tail(k)
    {
      hide Sound, SlotsOk, Tame, Tracks, ValidView, PhisPlaced, LeftsOk, Planned, AllTame, Refused, Spilled, InRegs, SlotDue;
      var right := t.loop.value.phis[k].right;
      NewLeft(t, k);
      SlotIsPlanned(t, k, phi.left, rs, sp);
      if right < t.first {
        // A constant has no code that stores it to its slot; the source does not look at this.
        ConstantStuck(t, k);
        return Failure(UnsyncedPhi);
      }
      RightMaySpill(t, k);
      ghost var sp0 := sp;
      SlotDueFacts(t, k, phi.left, rs, sp);
      var s :- Spill(right, None);
      assert sp == sp0[right := s];
      SlotGiven(t, k, phi.left, rs, sp0, s, code, modset, cur);
      ShareSlot(k, s);
      return Success(());
    }

    /** The PHI has the slot that its right operand has got. */
    method ShareSlot(k: nat, s: nat)
      requires t.loop.Some? && k < |t.loop.value.phis| && cur == |t.ir| && phi.body == []
      requires var op := t.loop.value.phis[k];
               && op.right < |sp| == |t.ir| && sp[op.right] == s != 0 && op.left !in phi.ending.slots && op.right !in phi.ending.slots
      requires ALL - freeset <= phi.left.Keys && modset <= phi.left.Keys
      requires phi.ending.slots.Keys + {t.loop.value.phis[k].right} == Spilled(sp)
      requires PhisPlaced(t.loop.value.phis[k + 1..], phi.left, phi.slot, phi.ending)
      requires Planned(t, t.loop.value.phis[k..], phi.left, rs, sp)
      requires AllTame(t, code, modset, sp, cur, {}) && LeftsOk(t, t.loop.value.start, phi.left) && Valid(None)
      requires phi.live == Waiting(t, |t.ir|)
      modifies phi`slot, phi`ending
      ensures Tail(k)
    {
      hide Supplied, Available, MaySpill, Live, Waiting, Sound, SlotsOk, Tame, Tracks, ValidView, PhisPlaced, LeftsOk,
           Planned, AllTame, Spilled;
      NewLeft(t, k);
      var op := t.loop.value.phis[k];
      ghost var phis := t.loop.value.phis[k..];
      assert phis[1..] == t.loop.value.phis[k + 1..] && phis[0] == op;
      ghost var v := Now();
      RightSpilled(t, code, v, modset, op.right);
      PlacedInSlot(phis, phi.left, phi.slot, phi.ending, s);
      SlotTracked(t, code, phi.body, modset, sp, cur, phi.left.Values, phi.ending, op.right);
      assert phi.ending.slots[op.right := s].Keys == phi.ending.slots.Keys + {op.right};
      phi.ending := phi.ending.(slots := phi.ending.slots[op.right := s]);
      phi.slot := phi.slot[op.left := s];
      SuppliedSame(t, v, Now(), phi.live);
    }

    lemma ModsetOk(p: Option<Pending>)
      requires Valid(p)
      ensures modset <= ALL
    {}

    /** All PHIs get registers or slots. */
    method AsmPhis() returns (res: Result<()>)
      requires t.loop.Some? && Tail(|t.loop.value.phis|)
      modifies this, phi
      ensures res.Failure? ==> Refusal(res.error)
      ensures res.Success? ==> Tail(0) && !Refused(t) && forall ref :: ref in phi.slot ==> SlotLeft(t, ref)
    {
      hide Tail, Refusal, Refused;
      var k := |t.loop.value.phis|;
      while k > 0
        invariant 0 <= k <= |t.loop.value.phis| && Tail(k)
      {
        var r := AsmPhi(k - 1);
        if r.Failure? { return r; }
        k := k - 1;
      }
      AllSeen();
      return Success(());
    }

    lemma AllSeen()
      requires t.loop.Some? && Tail(0)
      ensures !Refused(t) && forall ref :: ref in phi.slot ==> SlotLeft(t, ref)
    {
      hide Refused, ValidView, Sound, Tracks, SlotLeft, WellFormed, Supplied;
      assert t.loop.value.phis[0..] == t.loop.value.phis;
      SlotsSeen(t, phi.left, phi.slot, phi.ending, rs, sp);
    }

    /** Registers hold only what the body of the loop needs. */
    ghost predicate AtLoop()
      reads this, phi
    {
      t.loop.Some? && phi.live <= Waiting(t, t.loop.value.start)
    }

    lemma LoopGives(p: Option<Pending>, regs: set<Reg>)
      requires Valid(p) && AtLoop()
      ensures GivenUp(t, Now(), regs) && Available(t, Now(), regs)
    {
      hide Sound, SlotsOk, Spilled, Tracks, Waiting;
      LoopGivesUp(t, Now(), phi.live, regs);
    }

    /** One PHI register in a pass of `asm_phi_shuffle`. */
    method PhiCheck(r: Reg, blocked: set<Reg>, blockedby: set<Reg>, ghost v0: View, ghost work: set<Reg>)
      returns (res: Result<(set<Reg>, set<Reg>)>)
      requires r in work && Passing(v0, Now(), phi.left, work, blocked, blockedby)
      requires LeftsOk(t, cur, phi.left) && AtLoop() && Valid(None)
      modifies this
      ensures res.Failure? ==> res.error == SpillOverflow && Overflows(t)
      ensures old(modset) <= modset
      ensures res.Success? ==>
                cur == old(cur) && Valid(None) && Passing(v0, Now(), phi.left, work - {r}, res.value.0, res.value.1)
    {
      hide Sound, SlotsOk, Spilled, Tame, Tracks, ValidView, Passing;
      InWork(v0, Now(), phi.left, work, blocked, blockedby);
      var left := phi.left[r];
      if rs[left] == InReg(r) {
        RegisterOf(left, None);
        PassSettled(v0, Now(), phi.left, work, blocked, blockedby, r);
        return Success((blocked, blockedby));
      }
      if r !in freeset {
        NotItsOwn(t, Now(), phi.left, r);
        var ref := cost[r];
        if ref >= t.first && ref in phi.left.Values {
          PassBlocked(v0, Now(), phi.left, work, blocked, blockedby, r);
          return Success((blocked + {r}, if rs[left].InReg? then blockedby + {rs[left].reg} else blockedby));
        }
        // Otherwise grab the register from an invariant.
        ghost var v := Now();
        OwnerOf(r, None);
        LoopGives(None, {r});
        var _ :- Restore(ref, None);
        PassRestored(t, v0, v, Now(), phi.left, work, blocked, blockedby, ref, r);
      }
      res := PhiMove(r, blocked, blockedby, v0, work);
    }

    /** The PHI register is free: its left operand is renamed, if it is in a register. */
    method PhiMove(r: Reg, blocked: set<Reg>, blockedby: set<Reg>, ghost v0: View, ghost work: set<Reg>)
      returns (res: Result<(set<Reg>, set<Reg>)>)
      requires r in work && r in freeset && r in phi.left && Passing(v0, Now(), phi.left, work, blocked, blockedby)
      requires LeftsOk(t, cur, phi.left) && Valid(None)
      modifies this
      ensures res.Success? && old(modset) <= modset
      ensures cur == old(cur) && Valid(None) && Passing(v0, Now(), phi.left, work - {r}, res.value.0, res.value.1)
    {
      hide Sound, SlotsOk, Spilled, Tame, Tracks, ValidView, Passing;
      var left := phi.left[r];
      if rs[left].InReg? {
        RegisterOf(left, None);
        PassRenamed(t, v0, Now(), phi.left, work, blocked, blockedby, r);
        RenameSound(t, code, Now(), left, rs[left].reg, r);
        Rename(left, rs[left].reg, r);
      } else {
        PassSettled(v0, Now(), phi.left, work, blocked, blockedby, r);
      }
      return Success((blocked, blockedby));
    }

    /** A pass over all PHI registers: which are blocked by other PHIs, and which of these hold left
        operands of blocked registers. */
    method PhiPass() returns (res: Result<(set<Reg>, set<Reg>)>)
      requires LeftsOk(t, cur, phi.left) && AtLoop() && Valid(None)
      modifies this
      ensures res.Failure? ==> res.error == SpillOverflow && Overflows(t)
      ensures old(modset) <= modset
      ensures res.Success? ==>
                cur == old(cur) && Valid(None) && Passing(old(Now()), Now(), phi.left, {}, res.value.0, res.value.1)
    {
      hide Sound, SlotsOk, Spilled, Tame, Tracks, ValidView, Passing, LeftsOk;
      ghost var v0 := Now();
      var work := phi.left.Keys;
      var blocked, blockedby := {}, {};
      PassStart(v0, phi.left);
      while work != {}
        invariant cur == old(cur) && old(modset) <= modset && LeftsOk(t, cur, phi.left) && Valid(None)
        invariant Passing(v0, Now(), phi.left, work, blocked, blockedby)
        decreases |work|
      {
        var r :| r in work;
        var b :- PhiCheck(r, blocked, blockedby, v0, work);
        blocked, blockedby := b.0, b.1;
        work := work - {r};
      }
      return Success((blocked, blockedby));
    }

    /** `asm_phi_break`: renames a blocked left operand of a register file to some other register. */
    method PhiBreak(blocked: set<Reg>, blockedby: set<Reg>, allow: set<Reg>) returns (res: Result<()>)
      requires (allow == GPR || allow == FPR) && blocked <= phi.left.Keys
      requires Cyclic(Now(), phi.left, blocked * allow) && LeftsOk(t, cur, phi.left) && AtLoop() && Valid(None)
      modifies this
      ensures res.Failure? ==> res.error == SpillOverflow && Overflows(t)
      ensures old(modset) <= modset
      ensures res.Success? ==> cur == old(cur) && Valid(None) && SameOutside(old(Now()), Now(), allow)
      ensures res.Success? ==> Strayed(Now(), phi.left) <= Strayed(old(Now()), phi.left)
      ensures res.Success? && blocked * allow != {} ==> exists r :: r in blocked * allow && Ready(Now(), phi.left, r)
    {
      hide Sound, SlotsOk, Spilled, Tame, Tracks, ValidView, Cyclic, Strayed, Ready, SameOutside, Supplied, MaySpill, Available;
      OutsideSame(Now(), allow);
      var candidates := blocked * allow;
      ghost var c := candidates;
      if candidates != {} {
        ghost var v := Now();
        assert allow - blocked != {} by { SpareRegister(t, cur, phi.left, blocked, allow); }
        LoopGives(None, allow - blocked);
        var up :- Pick(allow - blocked, None);
        OutsideCur(v, Now(), allow - blocked);
        CyclesStay(t, v, Now(), allow - blocked, phi.left, c);
        StraysShrink(v, Now(), phi.left);
        if candidates - blockedby != {} { candidates := candidates - blockedby; }
        var down :| down in candidates;
        ghost var v1 := Now();
        BreakAt(down, up, allow, c);
        OutsideRenamed(v, v1, allow - blocked, allow, v1.cost[down], down, up);
      }
      return Success(());
    }

    /** The left operand in register down moves to the free register up. */
    method BreakAt(down: Reg, up: Reg, ghost allow: set<Reg>, ghost c: set<Reg>)
      requires (allow == GPR || allow == FPR) && down in c && c <= allow && up in allow && up in freeset
      requires Cyclic(Now(), phi.left, c) && LeftsOk(t, cur, phi.left) && Valid(None)
      modifies this
      ensures old(cost)[down] < |old(rs)| && Now() == Renamed(old(Now()), old(cost)[down], down, up) && Valid(None)
      ensures old(modset) <= modset && Strayed(Now(), phi.left) <= Strayed(old(Now()), phi.left) && Ready(Now(), phi.left, down)
    {
      hide Supplied, Sound, SlotsOk, Spilled, Tame, Tracks, ValidView, Cyclic, Strayed, Ready;
      HomeAstray(t, Now(), phi.left, c, down);
      CycleBroken(t, Now(), phi.left, c, down, up);
      SameFile(allow, cost[down], up, down);
      RenameSound(t, code, Now(), cost[down], down, up);
      RegisterOf(cost[down], None);
      SuppliedRenamed(t, Now(), phi.live, cost[down], down, up);
      Rename(cost[down], down, up);
    }

    /** The register and its owner are of one register file. */
    lemma SameFile(allow: set<Reg>, ref: Ref, up: Reg, down: Reg)
      requires (allow == GPR || allow == FPR) && ref < |t.ir| && up in allow && down in allow && down in ClassOf(t.ir[ref])
      ensures up in ClassOf(t.ir[ref])
    {}

    /** Breaks cycles in both register files: then some left operand can be renamed. */
    method PhiBreaks(blocked: set<Reg>, blockedby: set<Reg>) returns (res: Result<()>)
      requires blocked != {} && blocked <= phi.left.Keys
      requires Cyclic(Now(), phi.left, blocked) && LeftsOk(t, cur, phi.left) && AtLoop() && Valid(None)
      modifies this
      ensures res.Failure? ==> res.error == SpillOverflow && Overflows(t)
      ensures old(modset) <= modset
      ensures res.Success? ==> cur == old(cur) && Valid(None)
      ensures res.Success? ==> Strayed(Now(), phi.left) <= Strayed(old(Now()), phi.left) && SomeReady(Now(), phi.left)
    {
      hide Sound, SlotsOk, Spilled, Tame, Tracks, ValidView, Cyclic, Strayed, Ready, SameOutside, LeftsOk;
      ghost var v := Now();
      LeftsInAll(t, cur, phi.left);
      EnoughRegisters();
      CyclesOfClass(t, v, phi.left, blocked, GPR);
      CyclesOfClass(t, v, phi.left, blocked, FPR);
      var _ :- PhiBreak(blocked, blockedby, GPR);
      ghost var v1 := Now();
      OutsideCur(v, v1, GPR);
      CyclesStay(t, v, v1, GPR, phi.left, blocked * FPR);
      var _ :- PhiBreak(blocked, blockedby, FPR);
      OneReady(t, v1, Now(), phi.left, blocked);
      return Success(());
    }

    /** The first part of `asm_phi_shuffle`: passes and breaks until no PHI register is blocked. */
    method PhiSettle() returns (res: Result<()>)
      requires LeftsOk(t, cur, phi.left) && AtLoop() && Valid(None)
      modifies this
      ensures res.Failure? ==> res.error == SpillOverflow && Overflows(t)
      ensures old(modset) <= modset
      ensures res.Success? ==> cur == old(cur) && Valid(None) && AllSettled(Now(), phi.left)
    {
      hide Sound, SlotsOk, Spilled, Tame, Tracks, ValidView, Cyclic, Strayed, Passing, SomeReady, LeftsOk, AllSettled;
      while true
        invariant cur == old(cur) && old(modset) <= modset && LeftsOk(t, cur, phi.left) && Valid(None)
        decreases |Strayed(Now(), phi.left)|, if SomeReady(Now(), phi.left) then 0 else 1
      {
        ghost var v0 := Now();
        var b :- PhiPass();
        InWork(v0, Now(), phi.left, {}, b.0, b.1);
        ghost var v := Now();
        if b.0 == {} {
          PassDone(v0, Now(), phi.left, b.1);
          return Success(());
        }
        if freeset * b.0 == {} {
          assert b.0 !! freeset by {
            assert forall r :: r in b.0 && r in freeset ==> r in freeset * b.0;
          }
          BlockedPhisAreCycles(t, v0, Now(), phi.left, b.0, b.1);
          var _ :- PhiBreaks(b.0, b.1);
        }
        PassProgress(v0, v, Now(), phi.left, b.0, b.1);
      }
    }

    /** Gives up the registers of some invariants. */
    method RestoreAll(drop: set<Reg>) returns (res: Result<()>)
      requires drop <= ALL && drop !! freeset && drop !! phi.left.Keys && AllSettled(Now(), phi.left) && AtLoop() && Valid(None)
      modifies this
      ensures res.Failure? ==> res.error == SpillOverflow && Overflows(t)
      ensures old(modset) <= modset <= old(modset) + drop
      ensures res.Success? ==> cur == old(cur) && Valid(None) && AllSettled(Now(), phi.left)
      ensures res.Success? ==> old(freeset) + drop <= freeset
    {
      hide Sound, SlotsOk, Spilled, Tame, Tracks, ValidView, AllSettled;
      var work := drop;
      while work != {}
        invariant work <= drop && work !! freeset && old(freeset) + drop <= freeset + work
        invariant old(modset) <= modset <= old(modset) + drop
        invariant cur == old(cur) && AllSettled(Now(), phi.left) && Valid(None)
      {
        var r :| r in work;
        OwnerOf(r, None);
        ghost var v := Now();
        LoopGives(None, {r});
        var _ :- Restore(cost[r], None);
        InvariantGiven(t, v, Now(), phi.left, v.cost[r], r);
        work := work - {r};
      }
      return Success(());
    }

    /** The second part of `asm_phi_shuffle`: no invariant is left in a register that the body
        modifies. */
    method PhiRestore() returns (res: Result<()>)
      requires AllSettled(Now(), phi.left) && AtLoop() && Valid(None)
      modifies this
      ensures res.Failure? ==> res.error == SpillOverflow && Overflows(t)
      ensures res.Success? ==> cur == old(cur) && Valid(None) && AllSettled(Now(), phi.left)
      ensures res.Success? ==> modset <= freeset + phi.left.Keys
    {
      hide Sound, SlotsOk, Spilled, Tame, Tracks, ValidView, AllSettled;
      ModsetOk(None);
      var _ :- RestoreAll((modset - (freeset + phi.left.Keys)) * FPR);
      ModsetOk(None);
      var _ :- RestoreAll(modset - (freeset + phi.left.Keys));
      return Success(());
    }

    /** The last part of `asm_phi_shuffle`: a left operand that has a slot is saved from its PHI
        register, so that what the slot held before does not matter. */
    method PhiSave() returns (ghost saved: set<Ref>)
      requires AllSettled(Now(), phi.left) && LeftsOk(t, cur, phi.left) && phi.left.Values <= phi.live && Valid(None)
      modifies this
      ensures cur == old(cur) && sp == old(sp) && modset == old(modset) && old(freeset) - phi.left.Keys <= freeset
      ensures AllSettled(Now(), phi.left) && Valid(None) && SoundBut(t, code, Now(), saved)
      ensures saved <= phi.left.Values && forall ref :: ref in phi.left.Values && ref < |sp| && sp[ref] != 0 ==> ref in saved
    {
      hide Sound, SlotsOk, Spilled, Tame, Tracks, ValidView, AllSettled, LeftsOk, SoundBut;
      SoundButStart(t, code, Now());
      saved := {};
      var work := phi.left.Keys;
      while work != {}
        invariant work <= phi.left.Keys && saved <= phi.left.Values
        invariant forall r :: r in phi.left && r !in work && phi.left[r] < |sp| && sp[phi.left[r]] != 0 ==> phi.left[r] in saved
        invariant cur == old(cur) && sp == old(sp) && modset == old(modset) && old(freeset) - phi.left.Keys <= freeset
        invariant AllSettled(Now(), phi.left) && LeftsOk(t, cur, phi.left) && Valid(None) && SoundBut(t, code, Now(), saved)
      {
        var r :| r in work;
        LeftFacts(t, Now(), phi.left, r);
        if sp[phi.left[r]] != 0 {
          assert phi.left[r] in phi.left.Values;
          SaveOne(r, saved);
          saved := saved + {phi.left[r]};
        }
        work := work - {r};
      }
    }

    method SaveOne(r: Reg, ghost saved: set<Ref>)
      requires r in phi.left && phi.left[r] in phi.live && phi.left[r] < |sp| && sp[phi.left[r]] != 0
      requires AllSettled(Now(), phi.left) && LeftsOk(t, cur, phi.left) && Valid(None) && SoundBut(t, code, Now(), saved)
      modifies this
      ensures cur == old(cur) && sp == old(sp) && modset == old(modset) && old(freeset) - phi.left.Keys <= freeset
      ensures AllSettled(Now(), phi.left) && Valid(None) && SoundBut(t, code, Now(), saved + {phi.left[r]})
    {
      hide Sound, SlotsOk, Spilled, Tame, Tracks, ValidView, AllSettled, LeftsOk, SoundBut;
      var left := phi.left[r];
      LeftFacts(t, Now(), phi.left, r);
      if !rs[left].InReg? {
        AssignedSettled(t, Now(), phi.left, r);
        AssignSound(t, code, Now(), None, left, r);
        SoundButAssigned(t, code, Now(), saved, left, r);
      }
      var _ := Alloc1(left, {r}, None);
      SaveLeft(t, code, Now(), saved, left, r);
      Saveable(r, left);
      Emit(SpStore(r, sp[left], IsNum(t.ir[left])));
      SoundButEnd(t, code, Now(), saved + {left});
    }

    /** One half of `asm_phi_copyspill`: the copies for one kind of values, through register r. */
    method SlotMoves(num: bool, r: Reg) returns (copies: seq<MIns>)
      requires t.loop.Some?
      ensures copies == SlotCopies(t, sp, phi.slot, num, r, t.loop.value.phis)
    {
      var phis := t.loop.value.phis;
      var i := |phis|;
      copies := [];
      while i > 0
        invariant 0 <= i <= |phis| && copies == SlotCopies(t, sp, phi.slot, num, r, phis[i..])
      {
        i := i - 1;
        assert phis[i..][1..] == phis[i + 1..];
        copies := CopyOf(t, sp, phi.slot, num, r, phis[i]) + copies;
      }
      assert phis[0..] == phis;
    }

    /** `asm_phi_copyspill`: what is done before each round but the first. */
    method CopySpill() returns (copies: seq<MIns>, ghost r: Reg)
      requires t.loop.Some?
      ensures r in FPR && copies == AllCopies(t, freeset, sp, phi.slot, r, t.loop.value.phis)
    {
      copies := SlotMoves(false, RID_TMP);
      var tmp := RID_FPRET;
      if freeset * FPR != {} { tmp :| tmp in freeset * FPR; }
      var fps := SlotMoves(true, tmp);
      r := tmp;
      if fps != [] && tmp !in freeset {
        fps := [SpStore(tmp, SPS_TMP, true)] + (fps + [SpLoad(tmp, SPS_TMP, true)]);
      }
      copies := fps + copies;
    }

    /** `asm_loop`: the start of the loop body. */
    method AsmLoop() returns (res: Result<()>, ghost saved: set<Ref>, ghost r: Reg)
      requires t.loop.Some? && cur == t.loop.value.start && LeftsOk(t, cur, phi.left) && AtLoop() && Valid(None)
      requires PhisPlaced(t.loop.value.phis, phi.left, phi.slot, phi.ending)
      modifies this, phi`body, phi`copies, phi`ending, phi`live
      ensures res.Failure? ==> (res.error == SpillOverflow && Overflows(t)) || (res.error == UnsyncedPhi && Unsynced())
      ensures res.Success? ==> cur == old(cur) && Valid(None) && (cur > 0 ==> phi.live <= Behind(t, cur - 1))
      ensures res.Success? ==> LoopReady(t, phi.body, Now(), phi.left, phi.slot, saved)
      ensures res.Success? ==> r in FPR && phi.copies == AllCopies(t, freeset, sp, phi.slot, r, t.loop.value.phis)
    {
      hide Sound, SlotsOk, Spilled, Tame, Tracks, ValidView, AllSettled, LeftsOk, SoundBut, LoopReady, PhisPlaced, AllCopies,
           InStep, Unsynced;
      saved, r := {}, 0;
      var ok := PhiSettle();
      if ok.Failure? { return Failure(ok.error), saved, r; }
      ok := PhiRestore();
      if ok.Failure? { return Failure(ok.error), saved, r; }
      ghost var lefts := phi.left.Values;
      InUse(None);
      SetLive(Waiting(t, t.loop.value.start) + lefts);
      saved := PhiSave();
      LeftsFacts(t.loop.value.phis, phi.left, phi.slot, phi.ending);
      SlotLefts(t, phi.left, phi.slot);
      if cur > 0 { LeftsBehind(t, lefts); }
      res, r := EndLoop(saved);
    }

    /** The rest of `asm_loop`: the copies between slots, which lead to the start of the body. */
    method EndLoop(ghost saved: set<Ref>) returns (res: Result<()>, ghost r: Reg)
      requires t.loop.Some? && cur == t.loop.value.start && modset <= freeset + phi.left.Keys && |rs| == |t.ir| && cur <= |rs|
      requires PhisPlaced(t.loop.value.phis, phi.left, phi.slot, phi.ending) && (forall ref :: ref in phi.slot ==> ref < cur)
      requires phi.left.Values !! phi.slot.Keys && phi.left.Keys == phi.ending.regs.Keys && saved <= phi.left.Values
      requires forall ref :: ref in phi.left.Values && ref < |sp| && sp[ref] != 0 ==> ref in saved
      requires phi.live == Waiting(t, t.loop.value.start) + phi.left.Values
      requires AllSettled(Now(), phi.left) && Valid(None) && SoundBut(t, code, Now(), saved)
      modifies phi`body, phi`copies, phi`ending
      ensures res.Failure? ==> res.error == UnsyncedPhi && Unsynced()
      ensures res.Success? ==> Valid(None) && LoopReady(t, phi.body, Now(), phi.left, phi.slot, saved)
      ensures res.Success? ==> r in FPR && phi.copies == AllCopies(t, freeset, sp, phi.slot, r, t.loop.value.phis)
    {
      hide Sound, SlotsOk, Spilled, Tame, Tracks, ValidView, AllSettled, SoundBut, LoopReady, PhisPlaced, AllCopies, InStep, Unsynced,
           NextRound;
      r := 0;
      // The source does not look at this.
      var stale := set ref | ref in phi.slot.Keys && ref < |rs| && rs[ref].InReg?;
      if stale != {} {
        ghost var ref :| ref in stale;
        StaleUnsynced(ref);
        return Failure(UnsyncedPhi), r;
      }
      AllTracked(None);
      InStepNow(Now(), phi.slot, stale);
      RoundEnds(t, code, Now(), phi.left, phi.slot, modset, saved);
      LoopIsReady(t, code, Now(), phi.left, phi.slot, saved);
      NextKept(Now(), phi.left, phi.slot);
      SoundButEnd(t, code, Now().(ending := NextRound(Now(), phi.left, phi.slot, phi.ending)), saved);
      EndingTracked(t, code, modset, sp, cur, phi.left.Values, phi.ending, NextRound(Now(), phi.left, phi.slot, phi.ending));
      var copies;
      copies, r := CopySpill();
      phi.ending := NextRound(Now(), phi.left, phi.slot, phi.ending);
      phi.body, phi.copies := code, copies;
      return Success(()), r;
    }

    /** The left operand of a PHI in a slot is in a register that the body does not write. */
    ghost predicate Unsynced()
      reads phi
    {
      exists ref :: ref in phi.slot && StuckLeft(t, ref)
    }

    lemma StaleUnsynced(ref: Ref)
      requires ref in phi.slot && ref < |rs| && rs[ref].InReg? && phi.left.Values !! phi.slot.Keys
      requires t.loop.Some? && cur == t.loop.value.start && phi.live == Waiting(t, cur) + phi.left.Values
      requires ref < cur && modset <= freeset + phi.left.Keys && AllSettled(Now(), phi.left) && Valid(None)
      ensures Unsynced()
    {
      hide Sound, SlotsOk, Spilled, Waiting;
      RegisterOf(ref, None);
      var r := rs[ref].reg;
      NotAtHome(Now(), phi.left, ref, r);
      InUse(None);
      assert ref in Waiting(t, cur);
      assert Unwritten(t, code, Now(), modset, phi.left.Values, ref, r);
    }

    /** Part of the main loop of `lj_asm_trace`: from an entry back to entry `stop`: dead code is skipped. */
    method AsmEntries(start: nat, stop: nat) returns (res: Result<()>)
      requires Valid(None) && t.first <= stop <= start == cur && (stop < start ==> phi.live <= Behind(t, start - 1))
      modifies this, phi`live
      ensures res.Failure? ==> res.error == SpillOverflow && Overflows(t)
      ensures res.Success? ==> cur == stop && Valid(None) && (stop < start ==> phi.live == Waiting(t, stop))
      ensures stop == start ==> phi.live == old(phi.live)
    {
      hide Sound, SlotsOk, Spilled, Tame, Tracks, ValidView, Waiting, Behind, Live;
      var curins := start;
      while curins > stop
        invariant stop <= curins <= start && cur == curins && Valid(None)
        invariant if curins < start then phi.live == Waiting(t, curins) else phi.live == old(phi.live)
      {
        curins := curins - 1;
        if curins + 1 < start { WaitingBehind(t, curins); }
        if !Used(curins) && !t.ir[curins].XStore? && dce {
          BehindLive(t, curins);
          SkipSound(t, code, Now(), curins);
          Grown(modset, sp, curins);
          cur := curins;
        } else {
          var r := AsmIr(curins);
          if r.Failure? { return Failure(r.error); }
        }
        LeaveEntry(curins);
      }
      return Success(());
    }

    /** The rest of `lj_asm_trace`, for a trace without a parent: the head of the trace. */
    method AsmHead() returns (res: Result<()>)
      requires cur == t.first && Valid(None)
      modifies this
      ensures res.Success? && EndsWith(code, phi.body)
      ensures forall w: World, m: MState :: Sane(m) && m.out == [] && w.given == map[] ==>
                EndingOk(t, phi.ending) && Ends(t, w, phi.ending, Run(code, w, m))
    {
      hide Sound, SlotsOk, Spilled, Tame, ValidView, AllTame;
      Evictk();
      assert freeset == ALL by {
        forall r | r in ALL
          ensures r in freeset
        {
          if r !in freeset { OwnerOf(r, None); }
        }
      }
      if freeset != ALL { return Failure(BadRegAlloc); }
      StartSound(t, code, Now());
      ValidEnding();
      return Success(());
    }

    lemma ValidEnding()
      requires Valid(None)
      ensures EndingOk(t, phi.ending)
    {}

    /** `lj_asm_trace`: the PHIs, the body of the loop, the start of the loop, what is before it, and
        the head. */
    method AsmTrace() returns (res: Result<()>)
      requires Valid(None) && cur == |t.ir| && freeset == ALL && modset == {} && code == [] && (forall s :: s in sp ==> s == 0)
      requires (forall h :: h in rs ==> !h.InReg?)
      requires phi.left == map[] && phi.slot == map[] && phi.body == [] && phi.ending == Ending(map[], map[])
      modifies this, phi
      ensures res.Failure? ==> Refusal(res.error)
      ensures Refused(t) ==> res.Failure?
      ensures res.Success? ==> Performs(t, code, phi.copies, phi.body)
    {
      hide Sound, SlotsOk, Spilled, Tame, Tracks, ValidView, LoopReady, Refused, Overflows, Performs, Ends, AllCopies;
      SetLive(Waiting(t, |t.ir|));
      WaitingBehind(t, |t.ir| - 1);
      if t.loop.Some? {
        StartTail();
        res := AsmLooped();
      } else {
        NoPhis(t);
        var _ :- AsmEntries(|t.ir|, t.first);
        res := AsmHead();
        PlainPerforms(t, code, phi.copies, phi.body, phi.ending);
      }
    }

    /** A trace with a loop. */
    method AsmLooped() returns (res: Result<()>)
      requires t.loop.Some? && Tail(|t.loop.value.phis|)
      modifies this, phi
      ensures res.Failure? ==> Refusal(res.error)
      ensures Refused(t) ==> res.Failure?
      ensures res.Success? ==> Performs(t, code, phi.copies, phi.body)
    {
      hide Sound, SlotsOk, Spilled, Tame, Tracks, ValidView, LoopReady, Refused, Overflows, Performs, Ends, AllCopies, LeftsOk,
           PhisPlaced, Tail;
      var _ :- AsmPhis();
      TailFacts();
      if |t.ir| > 0 { WaitingBehind(t, |t.ir| - 1); }
      var _ :- AsmEntries(|t.ir|, t.loop.value.start);
      ghost var saved, r;
      res, saved, r := AsmLoop();
      if res.Failure? {
        if res.error == UnsyncedPhi { ghost var ref :| ref in phi.slot && StuckLeft(t, ref); LeftStuck(t, ref); }
        return;
      }
      ghost var v := Now();
      var _ :- AsmEntries(t.loop.value.start, t.first);
      res := AsmHead();
      LoopPerforms(t, code, phi.body, v, phi.left, phi.slot, saved, phi.copies, r);
    }

    lemma StartTail()
      requires t.loop.Some? && Valid(None) && cur == |t.ir| && freeset == ALL && modset == {} && code == []
      requires (forall s :: s in sp ==> s == 0) && (forall h :: h in rs ==> !h.InReg?)
      requires phi.left == map[] && phi.slot == map[] && phi.body == [] && phi.ending == Ending(map[], map[])
      requires phi.live == Waiting(t, |t.ir|)
      ensures Tail(|t.loop.value.phis|)
    {
      hide Sound, SlotsOk, Tame, Tracks, ValidView;
      EnoughRegisters();
      NonePlaced(t, rs, sp);
    }

    lemma TailFacts()
      requires t.loop.Some? && Tail(0)
      ensures PhisPlaced(t.loop.value.phis, phi.left, phi.slot, phi.ending) && LeftsOk(t, t.loop.value.start, phi.left)
      ensures cur == |t.ir| && t.first <= t.loop.value.start <= |t.ir| && phi.live == Waiting(t, |t.ir|) && Valid(None)
    {
      assert t.loop.value.phis[0..] == t.loop.value.phis;
    }
  }

  /** What the code for a trace does, whatever a machine state starts with: exactly the stores of
      the trace.  The code of a loop ends with its body; when the copies and the body are repeated
      n times, in whatever state calls leave registers behind, they do exactly the stores of n more
      rounds. */
  ghost predicate Performs(t: Trace, code: seq<MIns>, copies: seq<MIns>, body: seq<MIns>)
    requires WellFormed(t)
  {
    && (forall w: World, m: MState :: Sane(m) && m.out == [] && w.given == map[] ==> Run(code, w, m).out == Stores(t, w, |t.ir|))
    && (t.loop.Some? ==> EndsWith(code, body))
    && (t.loop.Some? ==> forall w: World, junk: nat -> (nat, Reg) -> Val, n: nat, m: MState ::
          Sane(m) && m.out == [] && w.given == map[] ==>
            Repeat(t, copies + body, w, junk, n, Run(code, w, m)).out == AllStores(t, w, junk, n))
  }

  lemma PlainPerforms(t: Trace, code: seq<MIns>, copies: seq<MIns>, body: seq<MIns>, ending: Ending)
    requires WellFormed(t) && t.loop.None? && EndingOk(t, ending)
    requires forall w: World, m: MState :: Sane(m) && m.out == [] && w.given == map[] ==> Ends(t, w, ending, Run(code, w, m))
    ensures Performs(t, code, copies, body)
  {}

  lemma LoopPerforms(t: Trace, code: seq<MIns>, body: seq<MIns>, v: View, left: map<Reg, Ref>, slot: map<Ref, nat>, saved: set<Ref>,
                     copies: seq<MIns>, r: Reg)
    requires LoopReady(t, body, v, left, slot, saved) && EndsWith(code, body)
    requires r in FPR && copies == AllCopies(t, v.free, v.sp, slot, r, t.loop.value.phis)
    requires forall w: World, m: MState :: Sane(m) && m.out == [] && w.given == map[] ==> Ends(t, w, v.ending, Run(code, w, m))
    ensures Performs(t, code, copies, body)
  {
    hide AllCopies;
    forall w: World, junk: nat -> (nat, Reg) -> Val, n: nat, m: MState | Sane(m) && m.out == [] && w.given == map[]
      ensures Repeat(t, copies + body, w, junk, n, Run(code, w, m)).out == AllStores(t, w, junk, n)
    {
      LoopRuns(t, body, v, left, slot, saved, copies, r, w, junk, n, Run(code, w, m));
    }
  }

  /** The code of a trace: all of it, the copies between slots that are done before a further round of the
      loop, and the body of the loop, which is the last part of the code. */
  datatype Output = Output(code: seq<MIns>, copies: seq<MIns>, body: seq<MIns>)

  /** Assembles a trace: whatever registers are picked and evicted, the code performs exactly the
      stores of the trace, and those of all rounds of its loop.  Assembly fails for PHIs that the
      plan refuses; otherwise only if all spill slots are in use, by references that needed one, or if a
      PHI cannot be kept in step.  It does not fail if no more references may need slots than there
      are, and so never for a trace that fits into the registers. */
  method Assemble(t: Trace, dce: bool, hints: seq<RState>) returns (res: Result<Output>)
    requires WellFormed(t) && |hints| == |t.ir| && forall h :: h in hints ==> !h.InReg?
    ensures res.Success? ==> Performs(t, res.value.code, res.value.copies, res.value.body)
    ensures res.Failure? ==> (res.error == SpillOverflow && Overflows(t)) || (res.error == NyiPhi && Refused(t)) ||
                             (res.error == UnsyncedPhi && StuckPhi(t))
    ensures Refused(t) ==> res.Failure?
    ensures !Crowded(t) && !Refused(t) && !StuckPhi(t) ==> res.Success?
    ensures !Crowded(t) && FewPhis(t) ==> res.Success?
    ensures LowPressure(t) ==> res.Success?
  {
    hide Performs, Refused, Crowded;
    if Overflows(t) { OverflowCrowded(t); }
    if LowPressure(t) { LowPressureFits(t); }
    if FewPhis(t) { FewPhisFit(t); }
    var as_ := new AsmState(t, dce, hints);
    var _ :- as_.AsmTrace();
    res := Success(Output(as_.code, as_.phi.copies, as_.phi.body));
  }

  /** Neither register file runs empty by excluding one register. */
  lemma EnoughRegisters()
    ensures forall r :: GPR - {r} != {} && FPR - {r} != {}
    ensures GPR != {} && FPR != {} && GPR !! FPR && RID_ZERO !in ALL
  {
    assert 1 in GPR && 2 in GPR && 32 in FPR && 34 in FPR;
    forall r
      ensures GPR - {r} != {} && FPR - {r} != {}
    {
      assert 1 in GPR - {r} || 2 in GPR - {r};
      assert 32 in FPR - {r} || 34 in FPR - {r};
    }
  }

  /** The three-operand instruction for entry i computes its value from the operand registers. */
  lemma OpValue(t: Trace, v: View, i: Ref, d: Reg, l: Reg, r: Reg, ins: MIns)
    requires ValidView(t, v) && v.cur <= i < |t.ir| && EntryOk(t, i) && d in ALL
    requires match t.ir[i]
             case Add(a, b) => ins == AddU(d, l, r)
             case Sub(a, b) => ins == SubU(d, l, r)
             case FArith(o, a, b) => ins == Fp(o, d, l, r)
             case _ => false
    requires Has(t, v, t.ir[i].op1, l) && Has(t, v, t.ir[i].op2, r)
    ensures forall w: World, at: nat, m: MState :: Holds(t, w, v, None, m) ==> Step(ins, w, at, m) == Set(m, d, Value(t, w, i))
  {
    hide SlotsOk, SlotHolds, Stores;
    forall w: World, at: nat, m: MState | Holds(t, w, v, None, m)
      ensures Step(ins, w, at, m) == Set(m, d, Value(t, w, i))
    {
      HasValue(t, w, v, t.ir[i].op1, l, m);
      HasValue(t, w, v, t.ir[i].op2, r, m);
    }
  }

  lemma LoadValue(t: Trace, v: View, i: Ref, d: Reg, b: Reg)
    requires v.cur <= i < |t.ir| && t.ir[i].SLoad? && 0 < t.first && |v.cost| == NREGS && t.first <= |t.ir| && Has(t, v, t.first - 1, b)
    requires ValidView(t, v) && d in ALL
    ensures forall w: World, at: nat, m: MState :: Holds(t, w, v, None, m) ==>
              Step(LoadStack(d, b, t.ir[i].slot), w, at, m) == Set(m, d, Value(t, w, i))
  {
    hide SlotsOk, SlotHolds, Stores;
    forall w: World, at: nat, m: MState | Holds(t, w, v, None, m)
      ensures Step(LoadStack(d, b, t.ir[i].slot), w, at, m) == Set(m, d, Value(t, w, i))
    {
      HasValue(t, w, v, t.first - 1, b, m);
    }
  }

  lemma StoreValues(t: Trace, v: View, i: Ref, s: Reg, b: Reg)
    requires v.cur <= i < |t.ir| && t.ir[i].XStore? && EntryOk(t, i) && |v.cost| == NREGS
    requires Has(t, v, t.ir[i].op1, b) && Has(t, v, t.ir[i].op2, s) && ValidView(t, v)
    ensures forall w: World, m: MState :: Holds(t, w, v, None, m) ==>
              Get(m, b) == Value(t, w, t.ir[i].op1) && Get(m, s) == Value(t, w, t.ir[i].op2)
  {
    hide SlotsOk, SlotHolds, Stores, Value;
    forall w: World, m: MState | Holds(t, w, v, None, m)
      ensures Get(m, b) == Value(t, w, t.ir[i].op1) && Get(m, s) == Value(t, w, t.ir[i].op2)
    {
      HasValue(t, w, v, t.ir[i].op1, b, m);
      HasValue(t, w, v, t.ir[i].op2, s, m);
    }
  }

  lemma WrapAdd(x: int, k: int)
    ensures Wrap(x + Wrap(k)) == Wrap(x + k)
  {
    var q := k / 0x1_0000_0000;
    assert x + k == x + Wrap(k) + 0x1_0000_0000 * q;
  }

  /** The value of an addition of a constant. */
  lemma AddConstant(t: Trace, w: World, i: Ref)
    requires WellFormed(t) && i < |t.ir| && EntryOk(t, i) && t.ir[i].Add? && t.ir[t.ir[i].op2].KInt? && i !in w.given
    ensures Value(t, w, i) == Wrap(Value(t, w, t.ir[i].op1) + t.ir[t.ir[i].op2].k)
  {
    hide Wrap;
    assert t.ir[i].op2 < t.first;
    assert Value(t, w, t.ir[i].op2) == Wrap(t.ir[t.ir[i].op2].k);
    WrapAdd(Value(t, w, t.ir[i].op1), t.ir[t.ir[i].op2].k);
  }

  lemma AddIValue(t: Trace, v: View, i: Ref, d: Reg, l: Reg)
    requires ValidView(t, v) && v.cur <= i < |t.ir| && EntryOk(t, i) && d in ALL
    requires t.ir[i].Add? && t.ir[t.ir[i].op2].KInt? && Has(t, v, t.ir[i].op1, l)
    ensures forall w: World, at: nat, m: MState :: Holds(t, w, v, None, m) ==>
              Step(AddIU(d, l, t.ir[t.ir[i].op2].k), w, at, m) == Set(m, d, Value(t, w, i))
  {
    hide SlotsOk, SlotHolds, Stores, Wrap, Value;
    forall w: World, at: nat, m: MState | Holds(t, w, v, None, m)
      ensures Step(AddIU(d, l, t.ir[t.ir[i].op2].k), w, at, m) == Set(m, d, Value(t, w, i))
    {
      HasValue(t, w, v, t.ir[i].op1, l, m);
      AddConstant(t, w, i);
    }
  }

  lemma LeftOvSound(t: Trace, code: seq<MIns>, v: View, dest: Reg, left: Reg, ref: Ref)
    requires ValidView(t, v) && ref < v.cur && dest in ALL && Sound(t, code, v, Some(Pending(dest, ref)))
    requires v.rs[ref] == InReg(left)
    ensures Sound(t, if left == dest then code else [Mov(dest, left)] + code, v, None)
  {
    assert Placed(v, ref);
    if left == dest {
      SettleSound(t, code, v, dest, ref);
    } else {
      forall w: World, at: nat, m: MState | Holds(t, w, v, None, m)
        ensures Step(Mov(dest, left), w, at, m) == Set(m, dest, Value(t, w, ref))
      {
        HasValue(t, w, v, ref, left, m);
      }
      OpSound(t, code, v, dest, ref, Mov(dest, left));
    }
  }

  lemma NeverAllocated(t: Trace, v: View, i: Ref)
    requires ValidView(t, v) && i < v.cur && t.ir[i].XStore?
    ensures !v.rs[i].InReg?
  {
    assert Placed(v, i);
  }
}
