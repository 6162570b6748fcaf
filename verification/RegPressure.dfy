/** What a trace asks of the register files (luajit/lj_asm.c): which values are needed at once, and
    so which of them may have to go to a spill slot.  All of this can be counted before the trace is
    assembled. */
module RegPressure {
  import opened RegAllocModel
  import opened RegShuffle
  import opened RegPhi

  predicate FitsI16(k: int) { -0x8000 <= k < 0x8000 }

  // ---------------------------------------------------------------- needed values

  /** What entry j needs in registers; a small constant is part of an addition. */
  function Operands(t: Trace, j: Ref): set<Ref>
    requires j < |t.ir|
  {
    match t.ir[j]
    case SLoad(_, _) => if t.first > 0 then {t.first - 1} else {}
    case Add(a, b) => if b < t.first && b < |t.ir| && t.ir[b].KInt? && FitsI16(t.ir[b].k) then {a} else {a, b}
    case Sub(a, b) => {a, b}
    case FArith(_, a, b) => {a, b}
    case Round(a) => {a}
    case XStore(a, b) => {a, b}
    case _ => {}
  }

  predicate Reads(t: Trace, j: Ref, r: Ref) { j < |t.ir| && r in Operands(t, j) }

  /** Entry i or a later one needs r. */
  ghost predicate ReadFrom(t: Trace, i: nat, r: Ref) { exists j: nat :: i <= j && Reads(t, j, r) }

  ghost predicate IsRight(t: Trace, r: Ref) { t.loop.Some? && exists p :: p in t.loop.value.phis && p.right == r }

  /** The start of the loop puts r in its PHI register, and entry i is before it. */
  ghost predicate EntersLoop(t: Trace, i: nat, r: Ref) {
    t.loop.Some? && i < t.loop.value.start && r in LeftsOf(t.loop.value.phis)
  }

  /** The references that are computed before entry i and needed from there on. */
  ghost function Waiting(t: Trace, i: nat): set<Ref> {
    set r: Ref | r < i && (ReadFrom(t, i, r) || IsRight(t, r) || EntersLoop(t, i, r))
  }

  /** Those that are needed behind entry i. */
  ghost function Behind(t: Trace, i: nat): set<Ref> {
    set r: Ref | r <= i && (ReadFrom(t, i + 1, r) || IsRight(t, r) || EntersLoop(t, i, r))
  }

  /** Those that are needed while entry i is being assembled, and i itself. */
  ghost function Live(t: Trace, i: nat): set<Ref> { Waiting(t, i) + {i} }

  predicate OfFile(t: Trace, num: bool, r: Ref) { r < |t.ir| && !t.ir[r].XStore? && IsNum(t.ir[r]) == num }

  ghost function LiveOf(t: Trace, i: nat, num: bool): set<Ref> { set r | r in Live(t, i) && OfFile(t, num, r) }

  /** Entry i needs more values of a register file than it has registers. */
  ghost predicate Tight(t: Trace, i: nat, num: bool) { |LiveOf(t, i, num)| > |File(num)| }

  /** A value that is needed across a call, which clobbers registers. */
  ghost predicate AcrossCall(t: Trace, i: nat, r: Ref) { t.first <= i < |t.ir| && t.ir[i].Round? && r < i && r in Behind(t, i) }

  ghost predicate AcrossTight(t: Trace, i: nat, r: Ref) {
    t.first <= i < |t.ir| && r < |t.ir| && Tight(t, i, IsNum(t.ir[r])) && r in LiveOf(t, i, IsNum(t.ir[r]))
  }

  ghost predicate SlotRight(t: Trace, k: nat, r: Ref) { GetsSlot(t, k) && t.loop.value.phis[k].right == r }

  /** The references that may ever get a spill slot: those that are needed where registers are short, across a
      call, in the body of a loop that they were computed before, and the right operands of PHIs that
      get slots. */
  ghost predicate Endangered(t: Trace, r: Ref) {
    || (exists i: nat :: AcrossTight(t, i, r))
    || (exists i: nat :: AcrossCall(t, i, r))
    || (t.loop.Some? && r in Waiting(t, t.loop.value.start))
    || (exists k: nat :: SlotRight(t, k, r))
  }

  ghost function MaySpill(t: Trace): set<Ref> { set r: Ref | t.first <= r < |t.ir| && Endangered(t, r) }

  /** More references may need slots than there are pairs of slots. */
  ghost predicate Crowded(t: Trace) { 2 * |MaySpill(t)| > NSLOTS - SPS_FIRST }

  /** A trace without loop and calls that never needs more values at once than there are registers. */
  ghost predicate LowPressure(t: Trace) {
    t.loop.None? && forall i :: t.first <= i < |t.ir| ==> !t.ir[i].Round? && !Tight(t, i, false) && !Tight(t, i, true)
  }

  lemma LowPressureFits(t: Trace)
    requires LowPressure(t)
    ensures MaySpill(t) == {} && !Crowded(t) && !Refused(t)
  {
    hide Tight, LiveOf, GetsSlot;
    forall r: Ref
      ensures !Endangered(t, r)
    {
      forall i: nat
        ensures !AcrossTight(t, i, r) && !AcrossCall(t, i, r)
      {}
      forall k: nat
        ensures !SlotRight(t, k, r)
      {
        NoSlot(t, k);
      }
    }
    assert MaySpill(t) == {};
  }

  lemma NoSlot(t: Trace, k: nat)
    requires t.loop.None?
    ensures !GetsSlot(t, k)
  {}

  function Between(lo: nat, hi: nat): (s: set<nat>)
    ensures forall r :: r in s <==> lo <= r < hi
  {
    if lo < hi then Between(lo, hi - 1) + {hi - 1} else {}
  }

  function Evens(lo: nat, hi: nat): set<nat> { set r | r in Between(lo, hi) && r % 2 == 0 }

  lemma FileSizes()
    ensures |GPR| == 26 && |FPR| == 16
  {
    hide Between, Evens;
    RangeSize(1, 28);
    assert Between(1, 29) == GPR + {26, 27};
    assert GPR !! {26, 27} && |{26, 27}| == 2;
    EvenSize(32, 16);
    EvensAre(32, 64);
    assert FPR == Evens(32, 64);
  }

  lemma EvensAre(lo: nat, hi: nat)
    ensures forall r :: r in Evens(lo, hi) <==> lo <= r < hi && r % 2 == 0
  {}

  lemma {:induction false} RangeSize(lo: nat, n: nat)
    ensures |Between(lo, lo + n)| == n
  {
    if n > 0 {
      RangeSize(lo, n - 1);
      assert Between(lo, lo + n) == Between(lo, lo + (n - 1)) + {lo + n - 1};
    } else {
      assert Between(lo, lo) == {};
    }
  }

  lemma {:induction false} EvenSize(lo: nat, n: nat)
    requires lo % 2 == 0
    ensures |Evens(lo, lo + 2 * n)| == n
  {
    if n > 0 {
      EvenSize(lo, n - 1);
      assert Evens(lo, lo + 2 * n) == Evens(lo, lo + 2 * (n - 1)) + {lo + 2 * (n - 1)};
    } else {
      assert Evens(lo, lo) == {};
    }
  }

  /** Every entry needs only constants and some of the d values before it. */
  predicate ShortLived(t: Trace, d: nat) {
    t.loop.None? && forall j :: t.first <= j < |t.ir| ==> !t.ir[j].Round? && NeedsNear(t, d, j)
  }

  predicate NeedsNear(t: Trace, d: nat, j: Ref)
    requires j < |t.ir|
  {
    forall r :: r in Operands(t, j) ==> r < t.first || j <= r + d
  }

  /** Traces of any length with short-lived values and few constants fit into registers. */
  lemma ShortLivedFits(t: Trace, d: nat)
    requires WellFormed(t) && ShortLived(t, d) && t.first + d + 1 <= 16
    ensures LowPressure(t)
  {
    hide WellFormed, ShortLived;
    FileSizes();
    ShortLivedPlain(t, d);
    forall i, num | t.first <= i < |t.ir|
      ensures !Tight(t, i, num) && !t.ir[i].Round?
    {
      var consts, near := LiveOf(t, i, num) - Between(t.first, i + 1), LiveOf(t, i, num) * Between(t.first, i + 1);
      forall r | r in near
        ensures i - d <= r < i + 1
      {
        if r != i { LiveNear(t, d, i, r); }
      }
      forall r | r in consts ensures 0 <= r < t.first { assert r in Live(t, i); }
      SubsetSize(consts, 0, t.first);
      SubsetSize(near, if i < d then 0 else i - d, i + 1);
      assert LiveOf(t, i, num) == consts + near;
    }
    assert LowPressure(t);
  }

  lemma ShortLivedPlain(t: Trace, d: nat)
    requires ShortLived(t, d)
    ensures t.loop.None? && forall i :: t.first <= i < |t.ir| ==> !t.ir[i].Round?
  {}

  lemma LiveNear(t: Trace, d: nat, i: nat, r: Ref)
    requires WellFormed(t) && ShortLived(t, d) && t.first <= r < i && r in Live(t, i)
    ensures i <= r + d
  {
    var j: nat :| i <= j && Reads(t, j, r);
    assert NeedsNear(t, d, j);
  }

  // ---------------------------------------------------------------- from entry to entry

  lemma WaitingBehind(t: Trace, i: nat)
    ensures Waiting(t, i + 1) <= Behind(t, i)
  {}

  /** After the start of a loop, left operands may be in their PHI registers. */
  lemma LeftsBehind(t: Trace, lefts: set<Ref>)
    requires WellFormed(t) && t.loop.Some? && lefts <= LeftsOf(t.loop.value.phis) && t.loop.value.start > 0
    ensures Waiting(t, t.loop.value.start) + lefts <= Behind(t, t.loop.value.start - 1)
  {
    forall r | r in lefts
      ensures r < t.loop.value.start
    {
      var p :| p in t.loop.value.phis && p.left == r;
      assert PhiOk(t, p, t.loop.value.start);
    }
  }

  lemma BehindLive(t: Trace, i: nat)
    ensures Behind(t, i) <= Live(t, i)
  {
    forall r | r in Behind(t, i)
      ensures r in Live(t, i)
    {
      if ReadFrom(t, i + 1, r) {
        var j: nat :| i + 1 <= j && Reads(t, j, r);
        assert ReadFrom(t, i, r);
      }
    }
  }

  lemma OperandLive(t: Trace, i: nat, r: Ref)
    requires i < |t.ir| && r in Operands(t, i) && r < i
    ensures r in Live(t, i)
  {
    assert Reads(t, i, r);
  }

  lemma AfterEntry(t: Trace, i: nat, r: Ref)
    requires r in Live(t, i) && r < i
    ensures r in Waiting(t, i)
  {}

  lemma RightWaits(t: Trace, k: nat)
    requires WellFormed(t) && t.loop.Some? && k < |t.loop.value.phis|
    ensures t.loop.value.phis[k].right in Waiting(t, |t.ir|)
  {
    assert PhiOk(t, t.loop.value.phis[k], t.loop.value.start);
    assert t.loop.value.phis[k] in t.loop.value.phis;
  }

  lemma RightMaySpill(t: Trace, k: nat)
    requires WellFormed(t) && GetsSlot(t, k) && t.first <= t.loop.value.phis[k].right
    ensures t.loop.value.phis[k].right in MaySpill(t)
  {
    assert PhiOk(t, t.loop.value.phis[k], t.loop.value.start);
    assert SlotRight(t, k, t.loop.value.phis[k].right);
  }

  // ---------------------------------------------------------------- the registers in use

  /** All registers in use have owners among `live`, and only references that may need slots have them. */
  ghost predicate Supplied(t: Trace, v: View, live: set<Ref>)
    requires |v.cost| == NREGS
  {
    Spilled(v.sp) <= MaySpill(t) && forall r :: r in ALL && r !in v.free ==> v.cost[r] in live
  }

  lemma SuppliedAssigned(t: Trace, v: View, live: set<Ref>, ref: Ref, r: Reg)
    requires |v.cost| == NREGS && Supplied(t, v, live) && ref in live && ref < |v.rs| && r < NREGS
    ensures Supplied(t, Assigned(v, ref, r), live)
  {}

  lemma SuppliedRenamed(t: Trace, v: View, live: set<Ref>, ref: Ref, down: Reg, up: Reg)
    requires |v.cost| == NREGS && Supplied(t, v, live) && ref < |v.rs| && up < NREGS && down in ALL && down !in v.free && v.cost[down] == ref
    ensures Supplied(t, Renamed(v, ref, down, up), live)
  {}

  /** What the registers hold does not depend on anything else. */
  lemma SuppliedSame(t: Trace, v: View, v': View, live: set<Ref>)
    requires |v.cost| == NREGS && Supplied(t, v, live) && v'.cost == v.cost && v.free <= v'.free && v'.sp == v.sp
    ensures Supplied(t, v', live)
  {}

  lemma SuppliedSlots(t: Trace, v: View, live: set<Ref>)
    requires |v.cost| == NREGS && Supplied(t, v, live)
    ensures Spilled(v.sp) <= MaySpill(t)
  {}

  lemma SuppliedSpilled(t: Trace, v: View, v': View, live: set<Ref>, ref: Ref, s: nat)
    requires |v.cost| == NREGS && Supplied(t, v, live) && ref in MaySpill(t) && ref < |v.sp|
    requires v'.cost == v.cost && v'.free == v.free && v'.sp == v.sp[ref := s]
    ensures Supplied(t, v', live)
  {
    hide MaySpill;
  }

  /** The owners of these registers may be given up: they are constants, or may need slots. */
  ghost predicate GivenUp(t: Trace, v: View, regs: set<Reg>)
    requires |v.cost| == NREGS
  {
    forall r :: r in regs && r in ALL && r !in v.free ==> v.cost[r] < t.first || v.cost[r] in MaySpill(t)
  }

  /** There is a free register, or those in use may be given up. */
  ghost predicate Available(t: Trace, v: View, allow: set<Reg>)
    requires |v.cost| == NREGS
  {
    v.free * allow == {} ==> GivenUp(t, v, allow)
  }

  /** Registers of a file that are all in use, and values without a register: too many for the file. */
  lemma FullFile(t: Trace, v: View, live: set<Ref>, i: nat, num: bool, regs: set<Reg>, more: set<Ref>)
    requires ValidView(t, v) && Supplied(t, v, live) && live <= Live(t, i)
    requires regs <= File(num) && regs !! v.free && more <= LiveOf(t, i, num) && |regs| + |more| > |File(num)|
    requires forall a :: a in more ==> a >= v.cur || !v.rs[a].InReg?
    ensures Tight(t, i, num)
  {
    hide SlotsOk, Live;
    var owner := map r | r in regs :: v.cost[r];
    forall r | r in regs
      ensures r in ALL && Owned(t, v, r) && owner[r] in LiveOf(t, i, num) && owner[r] !in more
    {
      FilesApart(r);
      assert r in ALL && Owned(t, v, r);
    }
    assert owner.Keys == regs;
    InjectiveSize(owner);
    assert owner.Values + more <= LiveOf(t, i, num) && owner.Values !! more;
    SubsetSmaller(owner.Values + more, LiveOf(t, i, num));
  }

  /** Where registers are short, all owners of a file may need slots. */
  lemma TightGivesUp(t: Trace, v: View, live: set<Ref>, i: nat, num: bool)
    requires ValidView(t, v) && Supplied(t, v, live) && live <= Live(t, i) && t.first <= i < |t.ir| && Tight(t, i, num)
    ensures GivenUp(t, v, File(num))
  {
    hide SlotsOk, Live, Tight;
    forall r | r in File(num) && r in ALL && r !in v.free
      ensures v.cost[r] < t.first || v.cost[r] in MaySpill(t)
    {
      FilesApart(r);
      assert Owned(t, v, r);
      assert v.cost[r] in LiveOf(t, i, num);
      assert v.cost[r] >= t.first ==> AcrossTight(t, i, v.cost[r]);
    }
  }

  /** ref needs a register other than `hole`, which belongs to another value: to one that is live, or to
      entry i itself. */
  lemma Pressed(t: Trace, v: View, live: set<Ref>, i: nat, ref: Ref, hole: Reg)
    requires ValidView(t, v) && Supplied(t, v, live) && live <= Live(t, i) && t.first <= i < |t.ir|
    requires ref in Live(t, i) && ref < v.cur && ref < |t.ir| && !v.rs[ref].InReg? && !t.ir[ref].XStore?
    requires hole in v.free ==> v.cur == i && hole in ClassOf(t.ir[i]) && !t.ir[i].XStore?
    ensures Available(t, v, ClassOf(t.ir[ref]) - {hole})
  {
    hide SlotsOk, Live, Tight, ValidView, Supplied;
    var num := IsNum(t.ir[ref]);
    var allow := File(num) - {hole};
    FileOf(t, ref);
    if v.free * allow == {} {
      if hole in v.free && hole in File(num) {
        PressedByDest(t, v, live, i, ref, hole);
      } else {
        assert File(num) !! v.free by { assert forall r :: r in File(num) && r in v.free ==> r == hole || r in v.free * allow; }
        assert OfFile(t, num, ref) && |{ref}| == 1;
        FullFile(t, v, live, i, num, File(num), {ref});
      }
      TightGivesUp(t, v, live, i, num);
    }
  }

  lemma PressedByDest(t: Trace, v: View, live: set<Ref>, i: nat, ref: Ref, dest: Reg)
    requires ValidView(t, v) && Supplied(t, v, live) && live <= Live(t, i) && i < |t.ir|
    requires ref in Live(t, i) && ref < v.cur && ref < |t.ir| && !v.rs[ref].InReg? && !t.ir[ref].XStore?
    requires v.cur == i && dest in ClassOf(t.ir[i]) && !t.ir[i].XStore? && dest in v.free
    requires dest in File(IsNum(t.ir[ref])) && v.free * (File(IsNum(t.ir[ref])) - {dest}) == {}
    ensures Tight(t, i, IsNum(t.ir[ref]))
  {
    hide SlotsOk, Live, Tight, ValidView, Supplied;
    var num := IsNum(t.ir[ref]);
    var regs := File(num) - {dest};
    FilesApart(dest);
    LiveSelf(t, i);
    assert OfFile(t, num, ref) && OfFile(t, num, i);
    assert File(num) == regs + {dest} && |{i, ref}| == 2;
    assert regs !! v.free by { assert forall r :: r in regs && r in v.free ==> r in v.free * regs; }
    FullFile(t, v, live, i, num, regs, {i, ref});
  }

  lemma LiveSelf(t: Trace, i: nat)
    ensures i in Live(t, i)
  {}

  /** A call may give up all registers but that of its result. */
  lemma CallGivesUp(t: Trace, v: View, live: set<Ref>, i: nat, drop: set<Reg>)
    requires ValidView(t, v) && Supplied(t, v, live) && live <= Behind(t, i) && t.first <= i < |t.ir| && t.ir[i].Round? && v.cur == i + 1
    requires v.rs[i].InReg? ==> v.rs[i].reg !in drop
    ensures GivenUp(t, v, drop)
  {
    hide SlotsOk, Behind;
    forall r | r in drop && r in ALL && r !in v.free
      ensures v.cost[r] < t.first || v.cost[r] in MaySpill(t)
    {
      assert Owned(t, v, r);
      assert AcrossCall(t, i, v.cost[r]);
    }
  }

  /** The start of a loop may give up all registers. */
  lemma LoopGivesUp(t: Trace, v: View, live: set<Ref>, regs: set<Reg>)
    requires WellFormed(t) && ValidView(t, v) && Supplied(t, v, live) && t.loop.Some? && live <= Waiting(t, t.loop.value.start)
    ensures GivenUp(t, v, regs)
  {
    hide SlotsOk, Waiting;
    forall r | r in regs && r in ALL && r !in v.free
      ensures v.cost[r] < t.first || v.cost[r] in MaySpill(t)
    {
      assert Owned(t, v, r);
    }
  }

  // ---------------------------------------------------------------- running out of slots

  /** Correct code has been emitted for the end of the trace, all slots are in use, each by a reference that may
      need one, and one more such reference needs a slot. */
  ghost predicate Exhausted(t: Trace, code: seq<MIns>, v: View, p: Option<Pending>, ref: Ref) {
    && ValidView(t, v) && PendingOk(t, p) && Sound(t, code, v, p)
    && Spilled(v.sp) <= MaySpill(t) && v.even <= SPS_FIRST + 2 * |Spilled(v.sp)|
    && ref in MaySpill(t) && ref < |v.sp| && v.sp[ref] == 0
    && v.even == NSLOTS && (IsNum(t.ir[ref]) || v.odd == 0)
  }

  ghost predicate Overflows(t: Trace) {
    exists code: seq<MIns>, v: View, p: Option<Pending>, ref: Ref :: Exhausted(t, code, v, p, ref)
  }

  /** Slots run out only if more references may need one than there are pairs. */
  lemma OverflowCrowded(t: Trace)
    requires Overflows(t)
    ensures Crowded(t)
  {
    hide ValidView, Sound, MaySpill;
    var code: seq<MIns>, v: View, p: Option<Pending>, ref: Ref :| Exhausted(t, code, v, p, ref);
    SubsetSmaller(Spilled(v.sp) + {ref}, MaySpill(t));
  }

  // ---------------------------------------------------------------- PHIs out of step

  /** There is right code for the body of the loop that starts with ref in register r and never writes r. */
  ghost predicate Unwritten(t: Trace, code: seq<MIns>, v: View, mod: set<Reg>, lefts: set<Ref>, ref: Ref, r: Reg) {
    && ValidView(t, v) && t.loop.Some? && ref < v.cur == t.loop.value.start && ref < |v.rs| && v.rs[ref] == InReg(r) && r !in mod
    && AllTame(t, code, mod, v.sp, v.cur, lefts) && Sound(t, code, v, None)
  }

  /** A PHI is to have a slot, and its right operand is a constant, which nothing stores there; or its left
      operand is used in the body, and may be left in a register that never gets the new value. */
  ghost predicate StuckPhi(t: Trace) {
    t.loop.Some? &&
    exists k: nat :: GetsSlot(t, k) &&
      (t.loop.value.phis[k].right < t.first || StuckLeft(t, t.loop.value.phis[k].left))
  }

  ghost predicate StuckLeft(t: Trace, ref: Ref) {
    t.loop.Some? && ref in Waiting(t, t.loop.value.start) &&
    exists code: seq<MIns>, v: View, mod: set<Reg>, lefts: set<Ref>, r: Reg :: Unwritten(t, code, v, mod, lefts, ref, r)
  }

  lemma ConstantStuck(t: Trace, k: nat)
    requires GetsSlot(t, k) && t.loop.value.phis[k].right < t.first
    ensures StuckPhi(t)
  {}

  lemma LeftStuck(t: Trace, ref: Ref)
    requires SlotLeft(t, ref) && StuckLeft(t, ref)
    ensures StuckPhi(t)
  {
    hide StuckLeft;
    var k: nat :| GetsSlot(t, k) && t.loop.value.phis[k].left == ref;
  }
}
