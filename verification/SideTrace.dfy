/** The head of a side trace (luajit/lj_asm.c): the values that the side trace inherits from its
    parent are brought from the parent's registers and spill slots to where the side trace
    wants them.  Loads and saves go first; the rest is a parallel move of registers, emitted
    backwards, with cycles broken by renaming a target to a temporary. */
module SideTrace {
  import opened RegAllocModel

  /** A register, or a word of the stack frame of the side trace. */
  datatype Place = R(reg: Reg) | M(word: nat)

  /** One instruction: a move, a load or a save. */
  datatype Copy = Copy(dst: Place, src: Place)

  type Machine = Place -> Val

  function Do(c: Copy, m: Machine): Machine {
    p => if p == c.dst then m(c.src) else m(p)
  }

  function RunCopies(code: seq<Copy>, m: Machine): Machine {
    if code == [] then m else RunCopies(code[1..], Do(code[0], m))
  }

  /** A demand: this place holds the value of this reference. */
  type Demand = (Place, Ref)

  ghost predicate Meets(m: Machine, val: Ref -> Val, want: set<Demand>) {
    forall d :: d in want ==> m(d.0) == val(d.1)
  }

  /** From every state that meets `want`, the code reaches a state that meets `goal`. */
  ghost predicate Delivers(code: seq<Copy>, want: set<Demand>, goal: set<Demand>) {
    forall m: Machine, val: Ref -> Val :: Meets(m, val, want) ==> Meets(RunCopies(code, m), val, goal)
  }

  /** Prepending a copy replaces the demand on its destination by one on its source. */
  lemma CopyDelivers(c: Copy, ref: Ref, code: seq<Copy>, want: set<Demand>, goal: set<Demand>)
    requires Delivers(code, want, goal)
    requires forall d :: d in want && d.0 == c.dst ==> d.1 == ref
    ensures Delivers([c] + code, (set d | d in want && d.0 != c.dst) + {(c.src, ref)}, goal)
  {
    var want' := (set d | d in want && d.0 != c.dst) + {(c.src, ref)};
    forall m: Machine, val: Ref -> Val | Meets(m, val, want')
      ensures Meets(RunCopies([c] + code, m), val, goal)
    {
      assert (c.src, ref) in want';
      forall d | d in want
        ensures Do(c, m)(d.0) == val(d.1)
      {
        if d.0 != c.dst { assert d in want'; }
      }
      assert Meets(Do(c, m), val, want);
      assert ([c] + code)[1..] == code;
    }
  }

  /** What is inherited: for each reference its class, its place in the parent, the register the
      side trace wants it in (if any) and its spill slot there (0 for none).  `delta` is the
      number of words by which the side trace extends the parent's frame. */
  datatype Inherited = Inherited(num: seq<bool>, parent: seq<Place>, reg: seq<Option<Reg>>, slot: seq<nat>, delta: nat)

  function Class(h: Inherited, i: Ref): set<Reg>
    requires i < |h.num|
  {
    if h.num[i] then FPR else GPR
  }

  predicate InheritedOk(h: Inherited) {
    && |h.num| == |h.parent| == |h.reg| == |h.slot|
    && (forall i :: 0 <= i < |h.num| ==> (h.reg[i].Some? ==> h.reg[i].value in Class(h, i)))
    && (forall i :: 0 <= i < |h.num| ==> (h.parent[i].R? ==> h.parent[i].reg in Class(h, i)))
    && (forall i, j :: 0 <= i < j < |h.num| ==> h.parent[i] != h.parent[j])
    && (forall i, j :: 0 <= i < j < |h.num| && h.reg[i].Some? ==> h.reg[i] != h.reg[j])
    && (forall i, j :: 0 <= i < j < |h.num| && h.slot[i] != 0 ==> h.slot[i] != h.slot[j])
  }

  predicate IsUsed(h: Inherited, i: Ref)
    requires i < |h.num| == |h.reg| == |h.slot|
  {
    h.reg[i].Some? || h.slot[i] != 0
  }

  /** The parent's place of reference i, in words of the side trace's frame. */
  function ParentPlace(h: Inherited, i: Ref): Place
    requires i < |h.parent|
  {
    match h.parent[i]
    case R(r) => R(r)
    case M(p) => M(p + h.delta)
  }

  /** What the side trace wants: every used reference in its register and in its slot. */
  ghost function Goal(h: Inherited): set<Demand>
    requires InheritedOk(h)
  {
    (set i | 0 <= i < |h.num| && h.reg[i].Some? :: (R(h.reg[i].value), i)) +
    (set i | 0 <= i < |h.num| && h.slot[i] != 0 :: (M(h.slot[i]), i))
  }

  /** What the parent provides. */
  ghost function Given(h: Inherited): set<Demand>
    requires InheritedOk(h)
  {
    set i | 0 <= i < |h.num| && IsUsed(h, i) :: (ParentPlace(h, i), i)
  }

  // ---------------------------------------------------------------- the state and its phases

  /** The state while the head is emitted: free registers, temporaries left, live parent
      registers still to be moved, owner of each register, register of each reference, the
      reference behind each live register, and the demands of the code emitted so far. */
  datatype HeadView = HeadView(free: set<Reg>, allow: set<Reg>, live: set<Reg>, cost: map<Reg, Ref>,
                       rs: seq<Option<Reg>>, sl: map<Reg, Ref>, want: set<Demand>)

  /** Reference x is allocated to register r. */
  predicate InReg(v: HeadView, x: Ref, r: Reg) {
    x < |v.rs| && v.rs[x] == Some(r) && r in ALL && r !in v.free && r in v.cost && v.cost[r] == x
  }

  predicate Allocated(v: HeadView, x: Ref) {
    x < |v.rs| && v.rs[x].Some? && InReg(v, x, v.rs[x].value)
  }

  /** Reference x waits for its parent register, which is live. */
  predicate Waits(h: Inherited, v: HeadView, x: Ref) {
    x < |h.parent| && h.parent[x].R? && h.parent[x].reg in v.live && h.parent[x].reg in v.sl && v.sl[h.parent[x].reg] == x
  }

  predicate FromSlot(h: Inherited, x: Ref) { x < |h.parent| && h.parent[x].M? }

  /** Reference x has a spill slot, but no register yet. */
  predicate Marked(h: Inherited, v: HeadView, x: Ref) {
    x < |h.slot| == |v.rs| && v.rs[x].None? && h.slot[x] != 0
  }

  predicate OwnerOk(h: Inherited, v: HeadView, temps: set<Reg>, r: Reg) {
    && r in v.cost && InReg(v, v.cost[r], r) && v.cost[r] < |h.num| && r in Class(h, v.cost[r])
    && |h.num| == |h.reg| == |h.slot| && IsUsed(h, v.cost[r])
    && (r in Targets(h) || r in temps)
  }

  predicate SourceOk(h: Inherited, v: HeadView, rp: Reg) {
    rp in v.sl && v.sl[rp] < |h.parent| == |h.num| == |h.reg| == |h.slot| && h.parent[v.sl[rp]] == R(rp) && IsUsed(h, v.sl[rp])
  }

  /** Where a demand may be: in the register its reference is allocated to; in a free register,
      no temporary any more, where the parent left it; in its slot; or in the parent's slot. */
  predicate DemandOk(h: Inherited, v: HeadView, d: Demand) {
    && d.1 < |h.num| == |h.parent| == |h.reg| == |h.slot| && IsUsed(h, d.1)
    && match d.0
       case R(r) =>
         && r in ALL
         && (r in v.free ==> r !in v.allow && r !in v.live && h.parent[d.1] == R(r))
         && (r !in v.free ==> InReg(v, d.1, r))
       case M(w) => (w != 0 && w == h.slot[d.1]) || ParentPlace(h, d.1) == M(w)
  }

  ghost predicate Valid(h: Inherited, v: HeadView, temps: set<Reg>) {
    && InheritedOk(h) && |v.rs| == |h.num| && v.free <= ALL && v.allow <= temps <= ALL && v.live <= ALL
    && (forall d :: d in v.want ==> DemandOk(h, v, d))
    && (forall r :: r in ALL && r !in v.free ==> OwnerOk(h, v, temps, r))
    && (forall rp :: rp in v.live ==> SourceOk(h, v, rp))
  }

  /** The first pass has dealt with the references from i on. */
  ghost predicate Scanned(h: Inherited, v: HeadView, temps: set<Reg>, i: nat, pass3: bool) {
    && Valid(h, v, temps) && v.rs == h.reg && i <= |h.num|
    && (forall r :: r in ALL && r !in v.free ==> v.cost[r] < i || (FromSlot(h, v.cost[r]) && pass3) || Waits(h, v, v.cost[r]))
    && (forall rp :: rp in v.live ==> v.sl[rp] >= i && (Marked(h, v, v.sl[rp]) || Allocated(v, v.sl[rp])))
    && (forall x :: i <= x < |v.rs| && v.rs[x].Some? ==> v.rs[x].value !in v.allow)
    && (forall x :: 0 <= x < i && v.rs[x].Some? ==> Allocated(v, x))
    && (forall d :: d in v.want ==> NotSaved(h, v, d, i))
    && (forall x :: i <= x < |v.rs| && Marked(h, v, x) ==> FromSlot(h, x) || Waits(h, v, x))
  }

  predicate NotSaved(h: Inherited, v: HeadView, d: Demand, i: nat) {
    match d.0
    case R(r) => r in v.free ==> d.1 >= i
    case M(w) => d.1 < |h.slot| && w == h.slot[d.1] != 0 && (d.1 < i || Marked(h, v, d.1))
  }

  function Copied(want: set<Demand>, c: Copy, ref: Ref): set<Demand> {
    (set d | d in want && d.0 != c.dst) + {(c.src, ref)}
  }

  /** The save of an allocated reference to its slot. */
  lemma SaveStep(h: Inherited, v: HeadView, temps: set<Reg>, i: nat, pass3: bool)
    requires Scanned(h, v, temps, i + 1, pass3) && v.rs[i].Some? && h.slot[i] != 0
    ensures var v' := v.(want := Copied(v.want, Copy(M(h.slot[i]), R(v.rs[i].value)), i));
            && Scanned(h, v', temps, i + 1, pass3)
            && (forall d :: d in v.want && d.0 == M(h.slot[i]) ==> d.1 == i)
            && (forall d :: d in v'.want ==> d.0 != M(h.slot[i]))
  {
    var r := v.rs[i].value;
    var v' := v.(want := Copied(v.want, Copy(M(h.slot[i]), R(r)), i));
    assert Allocated(v, i);
    forall d | d in v'.want
      ensures DemandOk(h, v', d) && NotSaved(h, v', d, i + 1)
    {
      if d in v.want {
        assert DemandOk(h, v, d) && NotSaved(h, v, d, i + 1);
      }
    }
    forall d | d in v.want && d.0 == M(h.slot[i])
      ensures d.1 == i
    {
      assert NotSaved(h, v, d, i + 1);
    }
  }

  /** The rest of the first pass for reference i, whose slot (if any) is saved. */
  function ScanView(h: Inherited, v: HeadView, i: nat): HeadView
    requires i < |h.parent| && |v.rs| == |h.parent| == |h.slot|
  {
    if v.rs[i].Some? then
      var v1 := v.(allow := v.allow - {v.rs[i].value});
      if h.parent[i] == R(v.rs[i].value) then v1.(free := v1.free + {v.rs[i].value})
      else if h.parent[i].M? then v1
      else v1.(sl := v.sl[h.parent[i].reg := i], live := v.live + {h.parent[i].reg})
    else if h.slot[i] != 0 && h.parent[i].R? then
      v.(sl := v.sl[h.parent[i].reg := i], live := v.live + {h.parent[i].reg})
    else v
  }

  /** What the first pass does to reference i, seen by an allocated register. */
  lemma ScanOwner(h: Inherited, v: HeadView, temps: set<Reg>, i: nat, pass3: bool, r: Reg)
    requires Scanned(h, v, temps, i + 1, pass3) && r in ALL && r !in ScanView(h, v, i).free
    ensures var v' := ScanView(h, v, i);
            && OwnerOk(h, v', temps, r) && r in v'.cost
            && (v'.cost[r] < i || (FromSlot(h, v'.cost[r]) && (pass3 || (v.rs[i].Some? && h.parent[i].M?))) || Waits(h, v', v'.cost[r]))
  {
    assert v.rs[i].Some? ==> Allocated(v, i);
    assert OwnerOk(h, v, temps, r);
    if v.cost[r] < |h.parent| && v.cost[r] != i { assert h.parent[v.cost[r]] != h.parent[i]; }
  }

  /** Seen by a live register. */
  lemma ScanSource(h: Inherited, v: HeadView, temps: set<Reg>, i: nat, pass3: bool, rp: Reg)
    requires Scanned(h, v, temps, i + 1, pass3) && rp in ScanView(h, v, i).live
    ensures var v' := ScanView(h, v, i);
            SourceOk(h, v', rp) && rp in v'.sl && v'.sl[rp] >= i && (Marked(h, v', v'.sl[rp]) || Allocated(v', v'.sl[rp]))
  {
    assert v.rs[i].Some? ==> Allocated(v, i);
    if rp in v.live {
      assert SourceOk(h, v, rp);
      assert v.sl[rp] != i ==> h.parent[v.sl[rp]] != h.parent[i];
    }
  }

  /** Seen by a demand. */
  lemma ScanDemand(h: Inherited, v: HeadView, temps: set<Reg>, i: nat, pass3: bool, d: Demand)
    requires Scanned(h, v, temps, i + 1, pass3) && d in v.want && (v.rs[i].Some? ==> d.0 != M(h.slot[i]))
    ensures DemandOk(h, ScanView(h, v, i), d) && NotSaved(h, ScanView(h, v, i), d, i)
  {
    assert v.rs[i].Some? ==> Allocated(v, i);
    assert DemandOk(h, v, d) && NotSaved(h, v, d, i + 1);
  }

  /** Seen by the references that are marked already, and by those still to come. */
  lemma ScanMarked(h: Inherited, v: HeadView, temps: set<Reg>, i: nat, pass3: bool, x: Ref)
    requires Scanned(h, v, temps, i + 1, pass3) && i <= x < |v.rs| && Marked(h, ScanView(h, v, i), x)
    ensures FromSlot(h, x) || Waits(h, ScanView(h, v, i), x)
  {
    assert Marked(h, v, x);
    assert x != i ==> h.parent[x] != h.parent[i];
  }

  lemma ScanAllocated(h: Inherited, v: HeadView, temps: set<Reg>, i: nat, pass3: bool, x: Ref)
    requires Scanned(h, v, temps, i + 1, pass3) && x < i && v.rs[x].Some?
    ensures Allocated(ScanView(h, v, i), x)
  {
    assert Allocated(v, x);
    assert v.rs[i].Some? ==> Allocated(v, i);
  }

  lemma ScanStep(h: Inherited, v: HeadView, temps: set<Reg>, i: nat, pass3: bool)
    requires Scanned(h, v, temps, i + 1, pass3)
    requires v.rs[i].Some? ==> forall d :: d in v.want ==> d.0 != M(h.slot[i])
    ensures Scanned(h, ScanView(h, v, i), temps, i, pass3 || (v.rs[i].Some? && h.parent[i].M?))
  {
    hide OwnerOk, SourceOk, DemandOk, NotSaved, Marked, Waits, FromSlot, Allocated;
    var v', pass3' := ScanView(h, v, i), pass3 || (v.rs[i].Some? && h.parent[i].M?);
    assert v.rs[i].Some? ==> Allocated(v, i) by { ScanAt(h, v, temps, i, pass3); }
    forall r | r in ALL && r !in v'.free
      ensures OwnerOk(h, v', temps, r) && r in v'.cost
      ensures v'.cost[r] < i || (FromSlot(h, v'.cost[r]) && pass3') || Waits(h, v', v'.cost[r])
    {
      ScanOwner(h, v, temps, i, pass3, r);
    }
    forall rp | rp in v'.live
      ensures SourceOk(h, v', rp) && rp in v'.sl
      ensures v'.sl[rp] >= i && (Marked(h, v', v'.sl[rp]) || Allocated(v', v'.sl[rp]))
    {
      ScanSource(h, v, temps, i, pass3, rp);
    }
    forall d | d in v'.want
      ensures DemandOk(h, v', d) && NotSaved(h, v', d, i)
    {
      ScanDemand(h, v, temps, i, pass3, d);
    }
    forall x | i <= x < |v'.rs| && Marked(h, v', x)
      ensures FromSlot(h, x) || Waits(h, v', x)
    {
      ScanMarked(h, v, temps, i, pass3, x);
    }
    forall x | 0 <= x < i && v'.rs[x].Some?
      ensures Allocated(v', x)
    {
      ScanAllocated(h, v, temps, i, pass3, x);
    }
  }

  lemma ScanAt(h: Inherited, v: HeadView, temps: set<Reg>, i: nat, pass3: bool)
    requires Scanned(h, v, temps, i + 1, pass3)
    ensures v.rs[i].Some? ==> Allocated(v, i)
  {}

  lemma ScannedSizes(h: Inherited, v: HeadView, temps: set<Reg>, i: nat, pass3: bool)
    requires Scanned(h, v, temps, i, pass3)
    ensures i <= |h.num| == |h.slot| == |h.parent| == |h.reg| == |v.rs| && v.rs == h.reg
  {}

  // ---------------------------------------------------------------- second pass

  /** The second pass has dealt with the marked references from i on. */
  ghost predicate Reloaded(h: Inherited, v: HeadView, temps: set<Reg>, i: nat, pass3: bool) {
    && Valid(h, v, temps) && i <= |h.num|
    && (forall r :: r in ALL && r !in v.free ==> r !in v.allow && ((FromSlot(h, v.cost[r]) && pass3) || Waits(h, v, v.cost[r])))
    && (forall rp :: rp in v.live ==> (v.sl[rp] < i && Marked(h, v, v.sl[rp])) || Allocated(v, v.sl[rp]))
    && (forall d :: d in v.want ==> NotReloaded(h, v, d, i))
    && (forall x :: 0 <= x < i && Marked(h, v, x) ==> FromSlot(h, x) || Waits(h, v, x))
  }

  predicate NotReloaded(h: Inherited, v: HeadView, d: Demand, i: nat) {
    d.0.M? ==>
      && d.1 < |h.slot| == |h.parent| && d.0.word == h.slot[d.1] != 0
      && ((d.1 < i && Marked(h, v, d.1)) || ParentPlace(h, d.1) == d.0)
  }

  lemma ScannedReloaded(h: Inherited, v: HeadView, temps: set<Reg>, pass3: bool)
    requires Scanned(h, v, temps, 0, pass3)
    ensures Reloaded(h, v, temps, |h.num|, pass3)
  {
    forall r | r in ALL && r !in v.free
      ensures r !in v.allow
    {
      assert OwnerOk(h, v, temps, r);
    }
    forall d | d in v.want
      ensures NotReloaded(h, v, d, |h.num|)
    {
      assert DemandOk(h, v, d) && NotSaved(h, v, d, 0);
    }
  }

  /** References that need no reload: unmarked ones, and those that keep their spill slot. */
  lemma ReloadSkip(h: Inherited, v: HeadView, temps: set<Reg>, i: nat, pass3: bool)
    requires Reloaded(h, v, temps, i + 1, pass3)
    requires Marked(h, v, i) ==> ParentPlace(h, i) == M(h.slot[i])
    ensures Reloaded(h, v, temps, i, pass3)
  {
    forall rp | rp in v.live
      ensures (v.sl[rp] < i && Marked(h, v, v.sl[rp])) || Allocated(v, v.sl[rp])
    {
      assert SourceOk(h, v, rp);
    }
    forall d | d in v.want
      ensures NotReloaded(h, v, d, i)
    {
      assert NotReloaded(h, v, d, i + 1);
    }
  }

  /** Marked reference i gets register r and is saved from it; if the parent left its value there,
      the two coalesce. */
  function ReloadView(h: Inherited, v: HeadView, i: nat, r: Reg): HeadView
    requires i < |v.rs| == |h.slot| == |h.parent|
  {
    var v1 := v.(free := v.free - {r}, allow := v.allow - {r}, cost := v.cost[r := i], rs := v.rs[i := Some(r)],
                 want := Copied(v.want, Copy(M(h.slot[i]), R(r)), i));
    if h.parent[i] == R(r) then v1.(free := v.free, live := v.live - {r}) else v1
  }

  /** Demands on the slot of a marked reference are its own, and its save satisfies them. */
  lemma SlotDemands(h: Inherited, v: HeadView, temps: set<Reg>, i: nat, pass3: bool)
    requires Reloaded(h, v, temps, i + 1, pass3) && h.slot[i] != 0
    ensures forall d :: d in v.want && d.0 == M(h.slot[i]) ==> d.1 == i
  {
    forall d | d in v.want && d.0 == M(h.slot[i])
      ensures d.1 == i
    {
      assert NotReloaded(h, v, d, i + 1);
    }
  }

  lemma ReloadedSizes(h: Inherited, v: HeadView, temps: set<Reg>, i: nat, pass3: bool)
    requires Reloaded(h, v, temps, i, pass3)
    ensures i <= |h.num| == |h.slot| == |h.parent| == |h.reg| == |v.rs|
  {}

  lemma ReloadDemand(h: Inherited, v: HeadView, temps: set<Reg>, i: nat, r: Reg, pass3: bool, d: Demand)
    requires Reloaded(h, v, temps, i + 1, pass3) && Marked(h, v, i) && r in v.allow && r in Class(h, i)
    requires d in ReloadView(h, v, i, r).want
    ensures DemandOk(h, ReloadView(h, v, i, r), d) && NotReloaded(h, ReloadView(h, v, i, r), d, i)
  {
    assert r in v.free;
    if d in v.want { assert DemandOk(h, v, d) && NotReloaded(h, v, d, i + 1); }
  }

  lemma ReloadStep(h: Inherited, v: HeadView, temps: set<Reg>, i: nat, r: Reg, pass3: bool)
    requires Reloaded(h, v, temps, i + 1, pass3) && Marked(h, v, i) && r in v.allow && r in Class(h, i)
    ensures Reloaded(h, ReloadView(h, v, i, r), temps, i, pass3 || h.parent[i].M?)
  {
    var v', pass3' := ReloadView(h, v, i, r), pass3 || h.parent[i].M?;
    assert forall x :: 0 <= x < |h.parent| && x != i ==> h.parent[x] != h.parent[i];
    assert r in v.free;
    hide DemandOk, NotReloaded;
    forall q | q in ALL && q !in v'.free
      ensures OwnerOk(h, v', temps, q)
      ensures q !in v'.allow && ((FromSlot(h, v'.cost[q]) && pass3') || Waits(h, v', v'.cost[q]))
    {
      if q != r { assert OwnerOk(h, v, temps, q); }
    }
    forall rp | rp in v'.live
      ensures SourceOk(h, v', rp)
      ensures (v'.sl[rp] < i && Marked(h, v', v'.sl[rp])) || Allocated(v', v'.sl[rp])
    {
      assert SourceOk(h, v, rp);
    }
    forall d | d in v'.want
      ensures DemandOk(h, v', d)
      ensures NotReloaded(h, v', d, i)
    {
      ReloadDemand(h, v, temps, i, r, pass3, d);
    }
    forall x | 0 <= x < i && Marked(h, v', x)
      ensures FromSlot(h, x) || Waits(h, v', x)
    {
      assert Marked(h, v, x);
    }
  }

  // ---------------------------------------------------------------- third pass and shuffle

  /** Only registers in `work` may still have to be loaded from the parent's slots; every other
      allocated register waits for a live parent register. */
  ghost predicate Loading(h: Inherited, v: HeadView, temps: set<Reg>, work: set<Reg>) {
    && Valid(h, v, temps)
    && (forall r :: r in ALL && r !in v.free ==> (r in work && FromSlot(h, v.cost[r])) || Waits(h, v, v.cost[r]))
    && (forall rp :: rp in v.live ==> Allocated(v, v.sl[rp]))
    && (forall d :: d in v.want && d.0.M? ==> d.1 < |h.parent| && ParentPlace(h, d.1) == d.0)
  }

  lemma ReloadedLoading(h: Inherited, v: HeadView, temps: set<Reg>, pass3: bool)
    requires Reloaded(h, v, temps, 0, pass3)
    ensures Loading(h, v, temps, if pass3 then ALL - v.free else {})
  {
    forall d | d in v.want && d.0.M?
      ensures d.1 < |h.parent| && ParentPlace(h, d.1) == d.0
    {
      assert NotReloaded(h, v, d, 0);
    }
  }

  /** Demands on an allocated register are those of its owner. */
  lemma RegDemands(h: Inherited, v: HeadView, temps: set<Reg>, r: Reg)
    requires Valid(h, v, temps) && r in ALL && r !in v.free
    ensures r in v.cost && forall d :: d in v.want && d.0 == R(r) ==> d.1 == v.cost[r]
  {
    assert OwnerOk(h, v, temps, r);
    forall d | d in v.want && d.0 == R(r)
      ensures d.1 == v.cost[r]
    {
      assert DemandOk(h, v, d);
    }
  }

  lemma LoadStep(h: Inherited, v: HeadView, temps: set<Reg>, work: set<Reg>, r: Reg)
    requires Loading(h, v, temps, work) && r in work && r in ALL && r !in v.free && FromSlot(h, v.cost[r])
    ensures Loading(h, v.(free := v.free + {r}, want := Copied(v.want, Copy(R(r), ParentPlace(h, v.cost[r])), v.cost[r])),
                    temps, work - {r})
  {
    var v' := v.(free := v.free + {r}, want := Copied(v.want, Copy(R(r), ParentPlace(h, v.cost[r])), v.cost[r]));
    assert OwnerOk(h, v, temps, r);
    forall q | q in ALL && q !in v'.free
      ensures OwnerOk(h, v', temps, q)
      ensures (q in work - {r} && FromSlot(h, v'.cost[q])) || Waits(h, v', v'.cost[q])
    {
      assert OwnerOk(h, v, temps, q);
    }
    forall rp | rp in v'.live
      ensures SourceOk(h, v', rp)
      ensures Allocated(v', v'.sl[rp])
    {
      assert SourceOk(h, v, rp);
    }
    forall d | d in v'.want
      ensures DemandOk(h, v', d)
      ensures d.0.M? ==> ParentPlace(h, d.1) == d.0
    {
      if d in v.want { assert DemandOk(h, v, d); }
    }
  }

  /** A live parent register that is free is moved to its target. */
  lemma CoalesceStep(h: Inherited, v: HeadView, temps: set<Reg>, p: Reg)
    requires Loading(h, v, temps, {})
    requires p in v.live && p in v.free
    ensures Loading(h, v.(live := v.live - {p}, allow := v.allow - {p}, free := v.free + {v.rs[v.sl[p]].value},
             want := Copied(v.want, Copy(R(v.rs[v.sl[p]].value), R(p)), v.sl[p])), temps, {})
  {
    var v' := v.(live := v.live - {p}, allow := v.allow - {p}, free := v.free + {v.rs[v.sl[p]].value},
             want := Copied(v.want, Copy(R(v.rs[v.sl[p]].value), R(p)), v.sl[p]));
    assert SourceOk(h, v, p) && Allocated(v, v.sl[p]);
    assert forall x :: 0 <= x < |h.parent| && x != v.sl[p] ==> h.parent[x] != h.parent[v.sl[p]];
    forall q | q in ALL && q !in v'.free
      ensures OwnerOk(h, v', temps, q)
      ensures Waits(h, v', v'.cost[q])
    {
      if q in v.cost { assert q !in v.free ==> OwnerOk(h, v, temps, q); }
    }
    forall rp | rp in v'.live
      ensures SourceOk(h, v', rp)
      ensures Allocated(v', v'.sl[rp])
    {
      assert SourceOk(h, v, rp);
    }
    forall d | d in v'.want
      ensures DemandOk(h, v', d)
      ensures d.0.M? ==> ParentPlace(h, d.1) == d.0
    {
      if d in v.want { assert DemandOk(h, v, d); }
    }
  }

  /** A target that blocks a live parent register is renamed to a temporary. */
  lemma RenameStep(h: Inherited, v: HeadView, temps: set<Reg>, down: Reg, up: Reg)
    requires Loading(h, v, temps, {})
    requires down in ALL && down !in v.free && up in v.free && up !in v.live && up in v.allow && up in Class(h, v.cost[down])
    ensures Loading(h, v.(free := v.free + {down} - {up}, cost := v.cost[up := v.cost[down]],
             rs := v.rs[v.cost[down] := Some(up)], want := Copied(v.want, Copy(R(down), R(up)), v.cost[down])), temps, {})
  {
    var v' := v.(free := v.free + {down} - {up}, cost := v.cost[up := v.cost[down]],
             rs := v.rs[v.cost[down] := Some(up)], want := Copied(v.want, Copy(R(down), R(up)), v.cost[down]));
    assert OwnerOk(h, v, temps, down);
    forall q | q in ALL && q !in v'.free
      ensures OwnerOk(h, v', temps, q)
      ensures Waits(h, v', v'.cost[q])
    {
      if q in v.cost { assert q !in v.free ==> OwnerOk(h, v, temps, q); }
    }
    forall rp | rp in v'.live
      ensures SourceOk(h, v', rp)
      ensures Allocated(v', v'.sl[rp])
    {
      assert SourceOk(h, v, rp);
    }
    forall d | d in v'.want
      ensures DemandOk(h, v', d)
      ensures d.0.M? ==> ParentPlace(h, d.1) == d.0
    {
      if d in v.want { assert DemandOk(h, v, d); }
    }
  }

  /** With no live register left, every target is free and only the parent's places are read. */
  lemma Finished(h: Inherited, v: HeadView, temps: set<Reg>)
    requires Loading(h, v, temps, {}) && v.live == {}
    ensures v.free == ALL && v.want <= Given(h)
  {
    forall d | d in v.want
      ensures d in Given(h)
    {
      assert DemandOk(h, v, d);
    }
  }

  /** Registers that a piece of code writes. */
  function Written(code: seq<Copy>): set<Reg> {
    set c | c in code && c.dst.R? :: c.dst.reg
  }

  /** Words of the frame that a piece of code writes. */
  function Saved(code: seq<Copy>): set<nat> {
    set c | c in code && c.dst.M? :: c.dst.word
  }

  /** The spill slots of the side trace. */
  function Slots(h: Inherited): set<nat> {
    set i | 0 <= i < |h.slot| && h.slot[i] != 0 :: h.slot[i]
  }

  function Targets(h: Inherited): set<Reg> {
    set i | 0 <= i < |h.reg| && h.reg[i].Some? :: h.reg[i].value
  }

  // ---------------------------------------------------------------- the running code

  datatype Outcome = Done | Nyi  // LJ_TRERR_NYICOAL: register coalescing too complex

  /** The live registers of this class are blocked, and no free register of the class is left
      as a temporary. */
  predicate NoTemp(v: HeadView, class': set<Reg>) {
    v.live * class' != {} && v.live * v.free * class' == {} && (v.free * v.allow * class') - v.live == {}
  }

  /** Blocked live registers are all on cycles: each is the target of a reference whose own parent
      register is live and of the same class. */
  lemma BlockedMeansCycles(h: Inherited, v: HeadView, temps: set<Reg>, class': set<Reg>)
    requires Loading(h, v, temps, {}) && (class' == GPR || class' == FPR) && v.live * v.free * class' == {}
    ensures forall r :: r in v.live * class' ==>
              r in v.cost && InReg(v, v.cost[r], r) && Waits(h, v, v.cost[r]) && h.parent[v.cost[r]].reg in class'
  {
    ClassesApart();
    forall r | r in v.live * class'
      ensures r in v.cost && InReg(v, v.cost[r], r) && Waits(h, v, v.cost[r]) && h.parent[v.cost[r]].reg in class'
    {
      assert r in v.free ==> r in v.live * v.free * class';
      assert OwnerOk(h, v, temps, r);
      assert SourceOk(h, v, h.parent[v.cost[r]].reg);
    }
  }

  // ---------------------------------------------------------------- enough temporaries

  function ClassSet(num: bool): set<Reg> { if num then FPR else GPR }

  /** Registers that the parent left inherited values in. */
  function Parents(h: Inherited): set<Reg> {
    set i | 0 <= i < |h.parent| && h.parent[i].R? :: h.parent[i].reg
  }

  /** Temporaries of a class that are neither wanted as targets nor hold inherited values. */
  function Spare(h: Inherited, temps: set<Reg>, num: bool): set<Reg> {
    temps * ClassSet(num) - Targets(h) - Parents(h)
  }

  /** Reference i is wanted only in a slot, and not in the slot where the parent has it: it is
      brought there through a register. */
  predicate Through(h: Inherited, i: Ref, num: bool)
    requires i < |h.num| == |h.parent| == |h.reg| == |h.slot|
  {
    h.num[i] == num && h.reg[i].None? && h.slot[i] != 0 && ParentPlace(h, i) != M(h.slot[i])
  }

  /** How many references from i on are brought through a register of this class. */
  function Needs(h: Inherited, num: bool, i: nat): nat
    requires i <= |h.num| == |h.parent| == |h.reg| == |h.slot|
    decreases |h.num| - i
  {
    if i == |h.num| then 0 else Needs(h, num, i + 1) + if Through(h, i, num) then 1 else 0
  }

  lemma {:induction false} NeedsMore(h: Inherited, num: bool, i: nat)
    requires i <= |h.num| == |h.parent| == |h.reg| == |h.slot|
    ensures Needs(h, num, i) <= Needs(h, num, 0)
    decreases i
  {
    if i > 0 { NeedsMore(h, num, i - 1); }
  }

  /** One spare temporary of each class for every reference that needs one, and one more. */
  predicate EnoughTemps(h: Inherited, temps: set<Reg>)
    requires InheritedOk(h)
  {
    |Spare(h, temps, false)| > Needs(h, false, 0) && |Spare(h, temps, true)| > Needs(h, true, 0)
  }

  /** Temporaries of a class that are not wanted as targets. */
  function Available(h: Inherited, temps: set<Reg>, num: bool): set<Reg> { temps * ClassSet(num) - Targets(h) }

  /** Reference x may come to own register r, which is not where the parent has it. */
  predicate MayOwn(h: Inherited, temps: set<Reg>, x: Ref, r: Reg)
    requires InheritedOk(h)
  {
    && x < |h.num| && r in Class(h, x) && h.parent[x] != R(r)
    && (h.reg[x] == Some(r) || (Through(h, x, h.num[x]) && r in temps - Targets(h)))
  }

  /** Registers of a class that wait for one another: the owner of each has to come from another. */
  predicate Cycle(h: Inherited, temps: set<Reg>, num: bool, owner: map<Reg, Ref>)
    requires InheritedOk(h)
  {
    owner != map[] && forall r :: r in owner ==> WaitsIn(h, temps, num, owner.Keys, r, owner[r])
  }

  /** Reference x may own register r, and comes from a register of the set. */
  predicate WaitsIn(h: Inherited, temps: set<Reg>, num: bool, regs: set<Reg>, r: Reg, x: Ref)
    requires InheritedOk(h)
  {
    r in ClassSet(num) && MayOwn(h, temps, x, r) && h.parent[x].R? && h.parent[x].reg in regs
  }

  /** Of this class there are too few temporaries: fewer than references that have to pass through
      one, or no more spare ones than these although a cycle may have to be broken. */
  ghost predicate Starved(h: Inherited, temps: set<Reg>, num: bool)
    requires InheritedOk(h)
  {
    || Needs(h, num, 0) > |Available(h, temps, num)|
    || (Needs(h, num, 0) >= |Spare(h, temps, num)| && exists owner :: Cycle(h, temps, num, owner))
  }

  lemma EnoughFeeds(h: Inherited, temps: set<Reg>, num: bool)
    requires InheritedOk(h) && EnoughTemps(h, temps)
    ensures !Starved(h, temps, num)
  {
    SubsetSize(Spare(h, temps, num), Available(h, temps, num));
  }

  lemma SubsetSize(s: set<Reg>, t: set<Reg>)
    requires s <= t
    ensures |s| <= |t|
  {
    assert t == s + (t - s);
  }

  /** Each reference from i on that has to pass through a register of the class has used up one
      temporary. */
  predicate RationedIn(h: Inherited, temps: set<Reg>, allow: set<Reg>, i: nat, num: bool)
    requires i <= |h.num| == |h.parent| == |h.reg| == |h.slot|
  {
    && |allow * ClassSet(num)| + Needs(h, num, i) == |Available(h, temps, num)|
    && |allow * Spare(h, temps, num)| + Needs(h, num, i) >= |Spare(h, temps, num)|
  }

  predicate Rationed(h: Inherited, temps: set<Reg>, allow: set<Reg>, i: nat)
    requires i <= |h.num| == |h.parent| == |h.reg| == |h.slot|
  {
    allow <= temps - Targets(h) && RationedIn(h, temps, allow, i, false) && RationedIn(h, temps, allow, i, true)
  }

  /** After the first pass. */
  lemma RationedStart(h: Inherited, temps: set<Reg>, allow: set<Reg>)
    requires InheritedOk(h) && allow == temps - Targets(h)
    ensures Rationed(h, temps, allow, |h.num|)
  {
    forall num
      ensures RationedIn(h, temps, allow, |h.num|, num)
    {
      assert allow * ClassSet(num) == Available(h, temps, num);
      assert allow * Spare(h, temps, num) == Spare(h, temps, num);
    }
  }

  lemma OneLess(s: set<Reg>, allow: set<Reg>, r: Reg)
    requires r in allow
    ensures |(allow - {r}) * s| + (if r in s then 1 else 0) == |allow * s|
  {
    if r in s {
      assert allow * s == (allow - {r}) * s + {r};
    } else {
      assert allow * s == (allow - {r}) * s;
    }
  }

  lemma RationedStep(h: Inherited, temps: set<Reg>, allow: set<Reg>, i: nat, r: Reg)
    requires InheritedOk(h) && i < |h.num| && Rationed(h, temps, allow, i + 1)
    requires Through(h, i, h.num[i]) && r in Class(h, i) && r in allow
    ensures Rationed(h, temps, allow - {r}, i) && r in temps - Targets(h)
  {
    ClassesApart();
    forall num
      ensures RationedIn(h, temps, allow - {r}, i, num)
    {
      assert RationedIn(h, temps, allow, i + 1, num);
      OneLess(ClassSet(num), allow, r);
      OneLess(Spare(h, temps, num), allow, r);
    }
  }

  lemma RationedSkip(h: Inherited, temps: set<Reg>, allow: set<Reg>, i: nat)
    requires i < |h.num| == |h.parent| == |h.reg| == |h.slot| && Rationed(h, temps, allow, i + 1)
    requires !Through(h, i, h.num[i])
    ensures Rationed(h, temps, allow, i)
  {}

  lemma {:induction false} RationedKept(h: Inherited, temps: set<Reg>, allow: set<Reg>, i: nat)
    requires InheritedOk(h) && i <= |h.num| && Rationed(h, temps, allow, i)
    requires forall x :: 0 <= x < i ==> h.reg[x].Some? || h.slot[x] == 0
    ensures Rationed(h, temps, allow, 0)
    decreases i
  {
    hide Rationed;
    if i > 0 {
      RationedSkip(h, temps, allow, i - 1);
      RationedKept(h, temps, allow, i - 1);
    }
  }

  /** No temporary for reference i: there were too few. */
  lemma TooFew(h: Inherited, temps: set<Reg>, allow: set<Reg>, i: nat)
    requires InheritedOk(h) && i < |h.num| && Rationed(h, temps, allow, i + 1)
    requires Through(h, i, h.num[i]) && Class(h, i) * allow == {}
    ensures Starved(h, temps, h.num[i])
  {
    var num := h.num[i];
    assert RationedIn(h, temps, allow, i + 1, num);
    assert allow * ClassSet(num) == {};
    NeedsMore(h, num, i);
  }

  // ---------------------------------------------------------------- owners of live registers

  /** Live registers that are allocated belong to references that may own them. */
  ghost predicate Owners(h: Inherited, v: HeadView, temps: set<Reg>)
    requires InheritedOk(h)
  {
    forall r :: r in ALL && r !in v.free && r in v.live ==> r in v.cost && MayOwn(h, temps, v.cost[r], r)
  }

  /** Targets from i on are not where the parent has their references. */
  predicate Crossed(h: Inherited, v: HeadView, i: nat) {
    forall r :: r in ALL && r !in v.free && r in v.cost && i <= v.cost[r] < |h.parent| ==> h.parent[v.cost[r]] != R(r)
  }

  lemma CrossedStep(h: Inherited, v: HeadView, temps: set<Reg>, i: nat, pass3: bool)
    requires Scanned(h, v, temps, i + 1, pass3) && Crossed(h, v, i + 1)
    ensures Crossed(h, ScanView(h, v, i), i)
  {
    var v' := ScanView(h, v, i);
    forall r | r in ALL && r !in v'.free && r in v'.cost && i <= v'.cost[r] < |h.parent|
      ensures h.parent[v'.cost[r]] != R(r)
    {
      assert OwnerOk(h, v, temps, r);
    }
  }

  lemma CrossedOwners(h: Inherited, v: HeadView, temps: set<Reg>, pass3: bool)
    requires Scanned(h, v, temps, 0, pass3) && Crossed(h, v, 0)
    ensures Owners(h, v, temps) && v.allow !! Targets(h)
  {
    forall r | r in ALL && r !in v.free
      ensures r in v.cost && MayOwn(h, temps, v.cost[r], r)
    {
      assert OwnerOk(h, v, temps, r);
    }
  }

  /** When moves are blocked for lack of a temporary, a class is starved. */
  lemma BlockedStarved(h: Inherited, v: HeadView, temps: set<Reg>, allow: set<Reg>, num: bool)
    requires InheritedOk(h) && NoTemp(v, ClassSet(num)) && Owners(h, v, temps)
    requires RationedIn(h, temps, allow, 0, num) && allow - Parents(h) <= v.allow
    requires Loading(h, v, temps, {})
    ensures Starved(h, temps, num)
  {
    BlockedCycle(h, v, temps, num);
    NoSpare(h, v, temps, allow, num);
    hide Loading, InheritedOk, Owners, Cycle, Needs, NoTemp, Spare, Available;
  }

  lemma BlockedCycle(h: Inherited, v: HeadView, temps: set<Reg>, num: bool)
    requires InheritedOk(h) && NoTemp(v, ClassSet(num)) && Owners(h, v, temps) && Loading(h, v, temps, {})
    ensures exists owner :: Cycle(h, temps, num, owner)
  {
    var blocked := v.live * ClassSet(num);
    assert blocked != {};
    forall r | r in blocked
      ensures WaitsIn(h, temps, num, blocked, r, OwnerIn(v, r))
    {
      hide *;
      BlockedOwner(h, v, temps, num, r);
    }
    hide Loading, InheritedOk, Owners, NoTemp, ClassSet, WaitsIn, Valid, OwnerIn;
    CycleOf(h, v, temps, num, blocked);
  }

  function OwnerIn(v: HeadView, r: Reg): Ref { if r in v.cost then v.cost[r] else 0 }

  lemma CycleOf(h: Inherited, v: HeadView, temps: set<Reg>, num: bool, blocked: set<Reg>)
    requires InheritedOk(h) && blocked != {} && forall r :: r in blocked ==> WaitsIn(h, temps, num, blocked, r, OwnerIn(v, r))
    ensures exists owner :: Cycle(h, temps, num, owner)
  {
    hide InheritedOk, WaitsIn, OwnerIn;
    var owner := map r | r in blocked :: OwnerIn(v, r);
    assert owner.Keys == blocked;
    assert Cycle(h, temps, num, owner);
  }

  lemma BlockedOwner(h: Inherited, v: HeadView, temps: set<Reg>, num: bool, r: Reg)
    requires InheritedOk(h) && NoTemp(v, ClassSet(num)) && r in v.live * ClassSet(num)
    requires Owners(h, v, temps) && Loading(h, v, temps, {})
    ensures WaitsIn(h, temps, num, v.live * ClassSet(num), r, OwnerIn(v, r))
  {
    assert r in ALL && (r in v.free ==> r in v.live * v.free * ClassSet(num));
    BlockedMeansCycles(h, v, temps, ClassSet(num));
    hide Loading, InheritedOk, InReg;
    assert Waits(h, v, v.cost[r]);
  }

  lemma NoSpare(h: Inherited, v: HeadView, temps: set<Reg>, allow: set<Reg>, num: bool)
    requires NoTemp(v, ClassSet(num)) && allow - Parents(h) <= v.allow && Loading(h, v, temps, {})
    ensures allow * Spare(h, temps, num) == {}
  {
    hide Loading;
    if allow * Spare(h, temps, num) != {} {
      var t :| t in allow * Spare(h, temps, num);
      assert t in v.allow * Spare(h, temps, num);
      SpareServes(h, v, temps, num);
    }
  }

  /** An allocated register of a class without a move waits for a live register of the class. */
  lemma WaitsFor(h: Inherited, v: HeadView, temps: set<Reg>, num: bool, r: Reg)
    requires Loading(h, v, temps, {}) && v.live * v.free * ClassSet(num) == {} && r in (ALL - v.free) * ClassSet(num)
    ensures r in v.cost && v.cost[r] < |h.parent| && h.parent[v.cost[r]].R? && InReg(v, v.cost[r], r)
    ensures WaitReg(h, v, r) == h.parent[v.cost[r]].reg
    ensures WaitReg(h, v, r) in (ALL - v.free) * ClassSet(num) && WaitReg(h, v, r) in v.live
  {
    ClassesApart();
    assert OwnerOk(h, v, temps, r) && Waits(h, v, v.cost[r]);
    var p := h.parent[v.cost[r]].reg;
    assert p in v.free ==> p in v.live * v.free * ClassSet(num);
  }

  /** No two wait for the same register. */
  lemma WaitsApart(h: Inherited, v: HeadView, temps: set<Reg>, num: bool, r: Reg, q: Reg)
    requires Loading(h, v, temps, {}) && v.live * v.free * ClassSet(num) == {} && r != q
    requires r in (ALL - v.free) * ClassSet(num) && q in (ALL - v.free) * ClassSet(num)
    ensures WaitReg(h, v, r) != WaitReg(h, v, q)
  {
    WaitsFor(h, v, temps, num, r);
    WaitsFor(h, v, temps, num, q);
    assert v.cost[r] < v.cost[q] || v.cost[q] < v.cost[r];
    assert h.parent[v.cost[r]] != h.parent[v.cost[q]];
  }

  /** The parent's register of the owner of r. */
  function WaitReg(h: Inherited, v: HeadView, r: Reg): Reg {
    if r in v.cost && v.cost[r] < |h.parent| && h.parent[v.cost[r]].R? then h.parent[v.cost[r]].reg else r
  }

  /** When nothing can be moved, every allocated register of the class is live: each waits for a live
      register, no two for the same one, and the live registers are allocated. */
  lemma BlockedAll(h: Inherited, v: HeadView, temps: set<Reg>, num: bool)
    requires Loading(h, v, temps, {}) && v.live * v.free * ClassSet(num) == {}
    ensures (ALL - v.free) * ClassSet(num) <= v.live
  {
    hide Loading, WaitReg, InReg;
    var taken := (ALL - v.free) * ClassSet(num);
    var waits := map r | r in taken :: WaitReg(h, v, r);
    forall p | p in waits.Values
      ensures p in waits.Keys
    {
      var r :| r in waits && waits[r] == p;
      WaitsFor(h, v, temps, num, r);
    }
    assert Injective(waits) by {
      forall r, q | r in waits && q in waits && r != q
        ensures waits[r] != waits[q]
      {
        WaitsApart(h, v, temps, num, r, q);
      }
    }
    hide Injective;
    forall r | r in taken
      ensures r in v.live
    {
      var q := Reaches(waits, r);
      WaitsFor(h, v, temps, num, q);
    }
  }

  /** With a spare temporary left, a cycle can be broken. */
  lemma SpareServes(h: Inherited, v: HeadView, temps: set<Reg>, num: bool)
    requires Loading(h, v, temps, {}) && v.live * v.free * ClassSet(num) == {}
    requires v.allow * Spare(h, temps, num) != {}
    ensures (v.free * v.allow * ClassSet(num)) - v.live != {}
  {
    var t :| t in v.allow * Spare(h, temps, num);
    BlockedAll(h, v, temps, num);
    hide Loading;
    if t in v.live { LiveFacts(h, v, temps, {}, t); }
    assert t in (ALL - v.free) * ClassSet(num) ==> t in v.live;
    assert t in (v.free * v.allow * ClassSet(num)) - v.live;
  }

  /** A reference that waits for a register cannot have one. */
  ghost predicate NoRegister(h: Inherited, v: HeadView) {
    exists i :: 0 <= i < |h.num| && Marked(h, v, i) && Class(h, i) * v.allow == {}
  }

  class HeadState {
    const h: Inherited
    const temps: set<Reg>         // registers that may serve as temporaries
    var freeset: set<Reg>
    var allow: set<Reg>
    var live: set<Reg>            // parent registers still to be moved
    var cost: map<Reg, Ref>
    var rs: seq<Option<Reg>>      // ir->r
    var sloadins: map<Reg, Ref>
    var code: seq<Copy>
    ghost var want: set<Demand>

    ghost function Now(): HeadView
      reads this
    {
      HeadView(freeset, allow, live, cost, rs, sloadins, want)
    }

    /** The code emitted so far delivers the goal, and writes only targets and temporaries. */
    ghost predicate CodeOk()
      reads this
    {
      && InheritedOk(h) && Delivers(code, want, Goal(h))
      && (forall r :: r in Written(code) ==> r in Targets(h) || r in temps) && Saved(code) <= Slots(h)
    }

    constructor (h: Inherited, temps: set<Reg>, cost: map<Reg, Ref>)
      requires InheritedOk(h) && temps <= ALL
      requires forall r :: r in Targets(h) ==> r in cost && cost[r] < |h.reg| && h.reg[cost[r]] == Some(r)
      ensures this.h == h && this.temps == temps && allow == temps && CodeOk() && Scanned(h, Now(), temps, |h.num|, false)
    {
      this.h, this.temps := h, temps;
      freeset, allow, live := ALL - Targets(h), temps, {};
      this.cost := cost;
      rs, sloadins, code, want := h.reg, map[], [], Goal(h);
      new;
      StartScanned(h, Now(), temps);
    }

    /** Emits a copy and replaces the demands on its destination by one on its source. */
    method Emit(c: Copy, ghost ref: Ref)
      requires CodeOk() && forall d :: d in want && d.0 == c.dst ==> d.1 == ref
      requires c.dst.R? ==> c.dst.reg in Targets(h) || c.dst.reg in temps
      requires c.dst.M? ==> c.dst.word in Slots(h)
      modifies this`code, this`want
      ensures CodeOk() && code == [c] + old(code) && want == Copied(old(want), c, ref)
    {
      CopyDelivers(c, ref, code, want, Goal(h));
      want := Copied(want, c, ref);
      code := [c] + code;
    }

    /** The body of the first loop: save a target with a slot, coalesce matching registers,
        or note the live parent register. */
    method ScanOne(i: nat, pass2: bool, pass3: bool) returns (pass2': bool, pass3': bool)
      requires CodeOk() && Scanned(h, Now(), temps, i + 1, pass3) && Crossed(h, Now(), i + 1)
      modifies this
      ensures CodeOk() && Scanned(h, Now(), temps, i, pass3') && Crossed(h, Now(), i)
      ensures rs == old(rs) && i < |rs| && i < |h.slot| && pass2' == (pass2 || (rs[i].None? && h.slot[i] != 0))
      ensures old(allow) - Targets(h) <= allow
    {
      hide Scanned, Valid, Delivers, Goal, InheritedOk, DemandOk, Crossed;
      ScannedSizes(h, Now(), temps, i + 1, pass3);
      if rs[i].Some? {
        if h.slot[i] != 0 {
          SaveStep(h, Now(), temps, i, pass3);
          Emit(Copy(M(h.slot[i]), R(rs[i].value)), i);
        } else {
          NoSlotDemand(h, Now(), temps, i, pass3);
        }
      }
      CrossedSame(h, Now(), i + 1);
      CrossedStep(h, Now(), temps, i, pass3);
      ScanStep(h, Now(), temps, i, pass3);
      pass2', pass3' := pass2, pass3;
      if rs[i].Some? {
        allow := allow - {rs[i].value};
        if h.parent[i] == R(rs[i].value) {
          freeset := freeset + {rs[i].value};
        } else if h.parent[i].M? {
          pass3' := true;
        } else {
          sloadins, live := sloadins[h.parent[i].reg := i], live + {h.parent[i].reg};
        }
      } else if h.slot[i] != 0 {
        pass2' := true;
        if h.parent[i].R? { sloadins, live := sloadins[h.parent[i].reg := i], live + {h.parent[i].reg}; }
      }
    }

    /** The first loop of `asm_head_side`. */
    method Scan() returns (pass2: bool, pass3: bool)
      requires CodeOk() && Scanned(h, Now(), temps, |h.num|, false)
      modifies this
      ensures CodeOk() && Scanned(h, Now(), temps, 0, pass3) && Crossed(h, Now(), 0)
      ensures !pass2 ==> forall x :: 0 <= x < |rs| && x < |h.slot| ==> rs[x].Some? || h.slot[x] == 0
      ensures rs == h.reg && old(allow) - Targets(h) <= allow
    {
      assert |rs| == |h.num| && rs == h.reg;
      assert Crossed(h, Now(), |h.num|);
      hide Scanned, Delivers, Goal, InheritedOk, Crossed, Targets, Slots, Written, Saved;
      pass2, pass3 := false, false;
      var i := |h.num|;
      while i > 0
        invariant 0 <= i <= |h.num| && CodeOk() && Scanned(h, Now(), temps, i, pass3) && Crossed(h, Now(), i)
        invariant !pass2 ==> forall x :: i <= x < |rs| && x < |h.slot| ==> rs[x].Some? || h.slot[x] == 0
        invariant rs == h.reg && old(allow) - Targets(h) <= allow
      {
        i := i - 1;
        pass2, pass3 := ScanOne(i, pass2, pass3);
      }
    }

    /** The body of the second loop: a target with a slot but no register gets a register, and is
        saved from it, unless it keeps the parent's slot. */
    method ReloadOne(i: nat, pass3: bool) returns (res: Outcome, pass3': bool)
      requires i < |h.num| == |rs| == |h.reg| && rs[i] == h.reg[i]
      requires CodeOk() && Reloaded(h, Now(), temps, i + 1, pass3) && Rationed(h, temps, allow, i + 1) && Owners(h, Now(), temps)
      modifies this
      ensures res.Done? ==> CodeOk() && Reloaded(h, Now(), temps, i, pass3')
      ensures res.Done? ==> Rationed(h, temps, allow, i) && Owners(h, Now(), temps)
      ensures |rs| == |old(rs)| && forall j :: 0 <= j < i ==> rs[j] == old(rs)[j]
      ensures res.Nyi? ==> Now() == old(Now()) && Marked(h, Now(), i) && Class(h, i) * allow == {}
      ensures res.Nyi? ==> Starved(h, temps, false) || Starved(h, temps, true)
    {
      hide Rationed, Starved, Owners;
      hide Reloaded, Valid, Delivers, Goal, InheritedOk;
      ReloadedSizes(h, Now(), temps, i + 1, pass3);
      res, pass3' := Done, pass3;
      ghost var v := Now();
      if rs[i].Some? || h.slot[i] == 0 || ParentPlace(h, i) == M(h.slot[i]) {
        ReloadSkip(h, v, temps, i, pass3);
        RationedSkip(h, temps, allow, i);
        return;
      }
      var mask := Class(h, i) * allow;
      if mask == {} {
        TooFew(h, temps, allow, i);
        return Nyi, pass3;
      }
      var r :| r in mask;
      RationedStep(h, temps, allow, i, r);
      SlotDemands(h, v, temps, i, pass3);
      AllowFree(h, v, temps, i, pass3, r);
      ReloadStep(h, v, temps, i, r, pass3);
      OwnerGiven(h, v, temps, i, r);
      freeset, cost, rs := freeset - {r}, cost[r := i], rs[i := Some(r)];
      Emit(Copy(M(h.slot[i]), R(r)), i);
      allow := allow - {r};
      if h.parent[i] == R(r) {
        freeset, live := freeset + {r}, live - {r};
      } else if h.parent[i].M? {
        pass3' := true;
      }
      OwnersSame(h, Now(), temps, OwnersView(v, i, r, h.parent[i] == R(r)));
    }

    /** The second loop. */
    method Reload(pass3: bool) returns (res: Outcome, pass3': bool)
      requires CodeOk() && Reloaded(h, Now(), temps, |h.num|, pass3) && rs == h.reg
      requires Rationed(h, temps, allow, |h.num|) && Owners(h, Now(), temps)
      modifies this
      ensures res.Done? ==> CodeOk() && Reloaded(h, Now(), temps, 0, pass3')
      ensures res.Done? ==> Rationed(h, temps, allow, 0) && Owners(h, Now(), temps)
      ensures res.Nyi? ==> NoRegister(h, Now()) && (Starved(h, temps, false) || Starved(h, temps, true))
    {
      hide Reloaded, Delivers, Goal, Rationed, Starved, Owners;
      pass3' := pass3;
      var i := |h.num|;
      while i > 0
        invariant 0 <= i <= |h.num| && CodeOk() && Reloaded(h, Now(), temps, i, pass3')
        invariant |rs| == |h.reg| && (forall j :: 0 <= j < i ==> rs[j] == h.reg[j])
        invariant Rationed(h, temps, allow, i) && Owners(h, Now(), temps)
      {
        i := i - 1;
        res, pass3' := ReloadOne(i, pass3');
        if res.Nyi? { return; }
      }
      res := Done;
    }

    /** The body of the third loop: a target inherited from a parent's spill slot is loaded. */
    method LoadOne(r: Reg, ghost work: set<Reg>)
      requires CodeOk() && Loading(h, Now(), temps, work) && r in work && r in ALL && r !in freeset
      modifies this
      ensures CodeOk() && Loading(h, Now(), temps, work - {r})
      ensures old(freeset) <= freeset <= old(freeset) + {r} && allow == old(allow) && live == old(live) && cost == old(cost)
    {
      ghost var v := Now();
      OwnerFacts(h, v, temps, work, r);
      var ref := cost[r];
      if h.parent[ref].M? {
        LoadStep(h, v, temps, work, r);
        hide Loading, Valid, Delivers, Goal, InheritedOk;
        freeset := freeset + {r};
        Emit(Copy(R(r), ParentPlace(h, ref)), ref);
      } else {
        LoadSkip(h, v, temps, work, r);
      }
    }

    /** The third loop. */
    method LoadSlots(start: set<Reg>)
      requires CodeOk() && Loading(h, Now(), temps, start) && start <= ALL && start !! freeset
      modifies this
      ensures CodeOk() && Loading(h, Now(), temps, {})
      ensures old(freeset) <= freeset && allow == old(allow) && live == old(live) && cost == old(cost)
    {
      hide Loading, Delivers, Goal, InheritedOk;
      var work := start;
      while work != {}
        invariant old(freeset) <= freeset && allow == old(allow) && live == old(live) && cost == old(cost)
        invariant CodeOk() && Loading(h, Now(), temps, work) && work <= ALL && work !! freeset
      {
        var r :| r in work;
        LoadOne(r, work);
        work := work - {r};
      }
    }

    /** Moves one live parent register that is free to its target. */
    method CoalesceOne(rp: Reg)
      requires CodeOk() && Loading(h, Now(), temps, {}) && rp in freeset && rp in live
      modifies this
      ensures CodeOk() && Loading(h, Now(), temps, {}) && live == old(live) - {rp}
      ensures old(allow) - Parents(h) <= allow && cost == old(cost) && old(freeset) <= freeset
    {
      hide Loading, Valid, Delivers, Goal, InheritedOk;
      ghost var v := Now();
      LiveFacts(h, v, temps, {}, rp);
      CoalesceStep(h, v, temps, rp);
      var i := sloadins[rp];
      var target := rs[i].value;
      live, allow, freeset := live - {rp}, allow - {rp}, freeset + {target};
      Emit(Copy(R(target), R(rp)), i);
    }

    /** Repeatedly coalesces free live registers. */
    method Coalesce()
      requires CodeOk() && Loading(h, Now(), temps, {})
      modifies this
      ensures CodeOk() && Loading(h, Now(), temps, {}) && freeset * live == {}
      ensures live <= old(live) && (old(freeset) * old(live) != {} ==> live < old(live))
      ensures old(allow) - Parents(h) <= allow && cost == old(cost) && old(freeset) <= freeset
    {
      hide Loading, Delivers, Goal, InheritedOk;
      while freeset * live != {}
        invariant CodeOk() && Loading(h, Now(), temps, {})
        invariant live <= old(live)
        invariant live == old(live) ==> freeset == old(freeset)
        invariant old(allow) - Parents(h) <= allow && cost == old(cost) && old(freeset) <= freeset
        decreases live
      {
        var rp :| rp in freeset * live;
        CoalesceOne(rp);
      }
    }

    /** `ra_rename`. */
    method Rename(down: Reg, up: Reg)
      requires CodeOk() && Loading(h, Now(), temps, {})
      requires down in ALL && down !in freeset && up in freeset && up !in live && up in allow
      requires down in cost && cost[down] < |h.num| && up in Class(h, cost[down])
      modifies this
      ensures CodeOk() && Loading(h, Now(), temps, {})
      ensures live == old(live) && freeset == old(freeset) + {down} - {up} && allow == old(allow)
      ensures cost == old(cost)[up := old(cost)[down]]
    {
      hide Loading, Valid, Delivers, Goal, InheritedOk;
      ghost var v := Now();
      OwnerFacts(h, v, temps, {}, down);
      RenameStep(h, v, temps, down, up);
      var ref := cost[down];
      cost, rs := cost[up := ref], rs[ref := Some(up)];
      freeset := freeset + {down} - {up};
      Emit(Copy(R(down), R(up)), ref);
    }

    /** Breaks the cycles among the live registers of one class, if there are any. */
    method Break(class': set<Reg>) returns (res: Outcome)
      requires CodeOk() && Loading(h, Now(), temps, {}) && (class' == GPR || class' == FPR)
      requires live * freeset * class' == {}
      modifies this
      ensures live == old(live) && allow == old(allow)
      ensures Owners(h, old(Now()), temps) ==> Owners(h, Now(), temps)
      ensures res.Nyi? ==> NoTemp(old(Now()), class') && Now() == old(Now())
      ensures res.Done? ==> CodeOk() && Loading(h, Now(), temps, {}) && freeset - class' == old(freeset) - class'
      ensures res.Done? && live * class' != {} ==> live * freeset != {}
      ensures live * class' == {} ==> freeset == old(freeset)
    {
      hide Loading, Delivers, Goal, InheritedOk;
      res := Done;
      if live * class' != {} {
        var tmpset := (freeset * allow * class') - live;
        if tmpset == {} {
          return Nyi;
        }
        var down :| down in live * class';
        var up :| up in tmpset;
        assert down !in freeset by { assert down in freeset ==> down in live * freeset * class'; }
        OwnerFacts(h, Now(), temps, {}, down);
        ClassesApart();
        Rename(down, up);
        assert down in live * freeset;
      }
    }

    /** The last loop: the parallel move.  It fails only for lack of a temporary, and then every
        live register is blocked. */
    method Shuffle() returns (res: Outcome)
      requires CodeOk() && Loading(h, Now(), temps, {}) && Owners(h, Now(), temps)
      modifies this
      ensures res.Done? ==> CodeOk() && Loading(h, Now(), temps, {}) && live == {}
      ensures old(allow) - Parents(h) <= allow
      ensures res.Nyi? ==>
                Loading(h, Now(), temps, {}) && Owners(h, Now(), temps) && (NoTemp(Now(), GPR) || NoTemp(Now(), FPR))
    {
      hide Loading, Delivers, Goal, InheritedOk, Owners;
      while true
        invariant CodeOk() && Loading(h, Now(), temps, {}) && Owners(h, Now(), temps)
        invariant old(allow) - Parents(h) <= allow
        decreases live, freeset * live == {}
      {
        ghost var v := Now();
        Coalesce();
        OwnersLess(h, v, Now(), temps);
        if live == {} { return Done; }
        ClassesApart();
        LiveInClasses(h, Now(), temps);
        ghost var before := freeset;
        res := Break(GPR);
        if res.Nyi? { return; }
        assert forall r :: r in FPR ==> (r in freeset <==> r in freeset - GPR) && (r in before <==> r in before - GPR);
        assert freeset * FPR == before * FPR;
        assert live * freeset * FPR == live * before * FPR == {};
        res := Break(FPR);
        if res.Nyi? { return; }
      }
    }

    /** `asm_head_side`: from every state in which the parent's places hold the inherited values,
        the head reaches one in which the wanted places do, and all registers end up free.  It fails
        for a reference that gets no register, or when all live registers of a class are blocked. */
    method HeadSide() returns (res: Outcome)
      requires CodeOk() && Scanned(h, Now(), temps, |h.num|, false) && allow == temps
      modifies this
      ensures res.Done? ==> InheritedOk(h) && Delivers(code, Given(h), Goal(h)) && freeset == ALL
      ensures res.Done? ==> (forall r :: r in Written(code) ==> r in Targets(h) || r in temps) && Saved(code) <= Slots(h)
      ensures res.Nyi? ==>
                NoRegister(h, Now()) || (Loading(h, Now(), temps, {}) && (NoTemp(Now(), GPR) || NoTemp(Now(), FPR)))
      ensures res.Nyi? ==> InheritedOk(h) && (Starved(h, temps, false) || Starved(h, temps, true))
    {
      hide Rationed, Starved, NoRegister, NoTemp, Owners, RationedIn;
      var pass2, pass3 := Scan();
      CrossedOwners(h, Now(), temps, pass3);
      ScannedReloaded(h, Now(), temps, pass3);
      assert allow == temps - Targets(h);
      RationedStart(h, temps, allow);
      if pass2 {
        res, pass3 := Reload(pass3);
        if res.Nyi? { return; }
      } else {
        NothingMarked(h, Now(), temps, pass3);
        RationedKept(h, temps, allow, |h.num|);
      }
      ReloadedLoading(h, Now(), temps, pass3);
      ghost var v, rationed := Now(), allow;
      if pass3 { LoadSlots(ALL - freeset); }
      OwnersLess(h, v, Now(), temps);
      res := Shuffle();
      if res.Done? {
        Finished(h, Now(), temps);
        DeliversMore(code, want, Given(h), Goal(h));
      } else {
        BothRationed(h, temps, rationed);
        if NoTemp(Now(), GPR) {
          BlockedStarved(h, Now(), temps, rationed, false);
        } else {
          BlockedStarved(h, Now(), temps, rationed, true);
        }
      }
    }
  }

  lemma BothRationed(h: Inherited, temps: set<Reg>, allow: set<Reg>)
    requires |h.num| == |h.parent| == |h.reg| == |h.slot| && Rationed(h, temps, allow, 0)
    ensures RationedIn(h, temps, allow, 0, false) && RationedIn(h, temps, allow, 0, true)
  {}

  lemma CrossedSame(h: Inherited, v: HeadView, i: nat)
    ensures forall want :: Crossed(h, v.(want := want), i) == Crossed(h, v, i)
  {}

  /** Owners as ReloadOne leaves them. */
  function OwnersView(v: HeadView, i: Ref, r: Reg, same: bool): HeadView {
    if same then v.(cost := v.cost[r := i], live := v.live - {r}) else v.(free := v.free - {r}, cost := v.cost[r := i])
  }

  lemma OwnerGiven(h: Inherited, v: HeadView, temps: set<Reg>, i: Ref, r: Reg)
    requires InheritedOk(h) && Owners(h, v, temps) && r in v.free && i < |h.num| && r in Class(h, i)
    requires Through(h, i, h.num[i]) && r in temps - Targets(h)
    ensures Owners(h, OwnersView(v, i, r, h.parent[i] == R(r)), temps)
  {}

  /** Only these three parts of the state matter. */
  lemma OwnersSame(h: Inherited, v: HeadView, temps: set<Reg>, v0: HeadView)
    requires InheritedOk(h) && Owners(h, v0, temps) && v.cost == v0.cost && v.live == v0.live && v.free == v0.free
    ensures Owners(h, v, temps)
  {}

  /** Moves only free registers and end lives. */
  lemma OwnersLess(h: Inherited, v: HeadView, v': HeadView, temps: set<Reg>)
    requires InheritedOk(h) && Owners(h, v, temps) && v'.cost == v.cost && v'.live <= v.live && v.free <= v'.free
    ensures Owners(h, v', temps)
  {}

  /** The parent has left each inherited value that is used in a register, or in a slot of its own frame,
      which is `delta` words further on in that of the side trace. */
  ghost predicate ParentLeft(h: Inherited, m: Machine, val: Ref -> Val)
    requires |h.num| == |h.parent| == |h.reg| == |h.slot|
  {
    forall i :: 0 <= i < |h.num| && (h.reg[i].Some? || h.slot[i] != 0) ==>
      match h.parent[i]
      case R(r) => m(R(r)) == val(i)
      case M(p) => m(M(p + h.delta)) == val(i)
  }

  /** Each inherited value is in its register and in its slot of the side trace. */
  ghost predicate Arrived(h: Inherited, m: Machine, val: Ref -> Val)
    requires |h.num| == |h.reg| == |h.slot|
  {
    forall i :: 0 <= i < |h.num| ==>
      (h.reg[i].Some? ==> m(R(h.reg[i].value)) == val(i)) && (h.slot[i] != 0 ==> m(M(h.slot[i])) == val(i))
  }

  /** Only targets, temporaries and the slots of the side trace have changed. */
  ghost predicate Undisturbed(h: Inherited, temps: set<Reg>, m: Machine, m': Machine) {
    && (forall r :: r !in Targets(h) && r !in temps ==> m'(R(r)) == m(R(r)))
    && (forall w :: w !in Slots(h) ==> m'(M(w)) == m(M(w)))
  }

  lemma {:induction false} CopiesKeep(code: seq<Copy>, m: Machine, p: Place)
    requires match p case R(r) => r !in Written(code) case M(w) => w !in Saved(code)
    ensures RunCopies(code, m)(p) == m(p)
  {
    if code != [] {
      assert code[0] in code && code[0].dst != p;
      CopiesKeep(code[1..], Do(code[0], m), p);
    }
  }

  /** What the code for all demands does. */
  lemma BroughtIn(h: Inherited, temps: set<Reg>, code: seq<Copy>)
    requires InheritedOk(h) && Delivers(code, Given(h), Goal(h))
    requires (forall r :: r in Written(code) ==> r in Targets(h) || r in temps) && Saved(code) <= Slots(h)
    ensures forall m: Machine, val: Ref -> Val :: ParentLeft(h, m, val) ==> Arrived(h, RunCopies(code, m), val)
    ensures forall m: Machine :: Undisturbed(h, temps, m, RunCopies(code, m))
  {
    hide Written, Saved, Targets, Slots, RunCopies;
    forall m: Machine, val: Ref -> Val | ParentLeft(h, m, val)
      ensures Arrived(h, RunCopies(code, m), val)
    {
      GivenMet(h, m, val);
      GoalArrived(h, RunCopies(code, m), val);
    }
    forall m: Machine
      ensures Undisturbed(h, temps, m, RunCopies(code, m))
    {
      forall r | r !in Targets(h) && r !in temps ensures RunCopies(code, m)(R(r)) == m(R(r)) { CopiesKeep(code, m, R(r)); }
      forall w | w !in Slots(h) ensures RunCopies(code, m)(M(w)) == m(M(w)) { CopiesKeep(code, m, M(w)); }
    }
  }

  lemma GivenMet(h: Inherited, m: Machine, val: Ref -> Val)
    requires InheritedOk(h) && ParentLeft(h, m, val)
    ensures Meets(m, val, Given(h))
  {}

  lemma GoalArrived(h: Inherited, m: Machine, val: Ref -> Val)
    requires InheritedOk(h) && Meets(m, val, Goal(h))
    ensures Arrived(h, m, val)
  {
    forall i | 0 <= i < |h.num|
      ensures (h.reg[i].Some? ==> m(R(h.reg[i].value)) == val(i)) && (h.slot[i] != 0 ==> m(M(h.slot[i])) == val(i))
    {
      if h.reg[i].Some? { assert (R(h.reg[i].value), i) in Goal(h); }
      if h.slot[i] != 0 { assert (M(h.slot[i]), i) in Goal(h); }
    }
  }

  /** The head of a side trace for the inherited values h, with the given temporaries.  It fails only
      if a class is starved of temporaries, and not if there are enough of them. */
  method BringIn(h: Inherited, temps: set<Reg>, cost: map<Reg, Ref>) returns (res: Outcome, code: seq<Copy>)
    requires InheritedOk(h) && temps <= ALL
    requires forall r :: r in Targets(h) ==> r in cost && cost[r] < |h.reg| && h.reg[cost[r]] == Some(r)
    ensures res.Done? ==> forall m: Machine, val: Ref -> Val :: ParentLeft(h, m, val) ==> Arrived(h, RunCopies(code, m), val)
    ensures res.Done? ==> forall m: Machine :: Undisturbed(h, temps, m, RunCopies(code, m))
    ensures res.Nyi? ==> Starved(h, temps, false) || Starved(h, temps, true)
    ensures EnoughTemps(h, temps) ==> res.Done?
  {
    var head := new HeadState(h, temps, cost);
    res := head.HeadSide();
    code := head.code;
    if res.Done? { BroughtIn(h, temps, code); }
    if EnoughTemps(h, temps) {
      EnoughFeeds(h, temps, false);
      EnoughFeeds(h, temps, true);
    }
  }

  lemma DeliversMore(code: seq<Copy>, want: set<Demand>, more: set<Demand>, goal: set<Demand>)
    requires Delivers(code, want, goal) && want <= more
    ensures Delivers(code, more, goal)
  {
    forall m: Machine, val: Ref -> Val | Meets(m, val, more)
      ensures Meets(RunCopies(code, m), val, goal)
    {
      assert Meets(m, val, want);
    }
  }

  lemma NothingMarked(h: Inherited, v: HeadView, temps: set<Reg>, pass3: bool)
    requires Reloaded(h, v, temps, |h.num|, pass3)
    requires forall x :: 0 <= x < |v.rs| && x < |h.slot| ==> v.rs[x].Some? || h.slot[x] == 0
    ensures Reloaded(h, v, temps, 0, pass3)
  {
    forall rp | rp in v.live
      ensures Allocated(v, v.sl[rp])
    {
      assert SourceOk(h, v, rp);
    }
    forall d | d in v.want
      ensures NotReloaded(h, v, d, 0)
    {
      assert NotReloaded(h, v, d, |h.num|);
    }
  }

  lemma LoadSkip(h: Inherited, v: HeadView, temps: set<Reg>, work: set<Reg>, r: Reg)
    requires Loading(h, v, temps, work) && r in ALL && r !in v.free && !FromSlot(h, v.cost[r])
    ensures Loading(h, v, temps, work - {r})
  {}

  lemma LiveInClasses(h: Inherited, v: HeadView, temps: set<Reg>)
    requires Loading(h, v, temps, {}) && v.live != {}
    ensures v.live * GPR != {} || v.live * FPR != {}
  {
    var r :| r in v.live;
    assert r in v.live * GPR || r in v.live * FPR;
  }

  /** What the moving loops need to know about a live register and its target. */
  lemma LiveFacts(h: Inherited, v: HeadView, temps: set<Reg>, work: set<Reg>, rp: Reg)
    requires Loading(h, v, temps, work) && rp in v.live
    ensures rp in v.sl && v.sl[rp] < |v.rs| == |h.num| && v.rs[v.sl[rp]].Some?
    ensures var t := v.rs[v.sl[rp]].value;
            && (t in Targets(h) || t in temps)
            && forall d :: d in v.want && d.0 == R(t) ==> d.1 == v.sl[rp]
    ensures rp in Parents(h)
  {
    assert SourceOk(h, v, rp) && Allocated(v, v.sl[rp]);
    RegDemands(h, v, temps, v.rs[v.sl[rp]].value);
    assert OwnerOk(h, v, temps, v.rs[v.sl[rp]].value);
  }

  /** What they need to know about an allocated register. */
  lemma OwnerFacts(h: Inherited, v: HeadView, temps: set<Reg>, work: set<Reg>, r: Reg)
    requires Loading(h, v, temps, work) && r in ALL && r !in v.free
    ensures r in v.cost && v.cost[r] < |v.rs| == |h.num| == |h.parent| && r in Class(h, v.cost[r]) && v.rs[v.cost[r]] == Some(r)
    ensures r in Targets(h) || r in temps
    ensures forall d :: d in v.want && d.0 == R(r) ==> d.1 == v.cost[r]
  {
    assert OwnerOk(h, v, temps, r);
    RegDemands(h, v, temps, r);
  }

  lemma ClassesApart()
    ensures GPR !! FPR
  {}

  lemma StartScanned(h: Inherited, v: HeadView, temps: set<Reg>)
    requires InheritedOk(h) && temps <= ALL && v.free == ALL - Targets(h) && v.allow == temps && v.live == {}
    requires v.rs == h.reg && v.want == Goal(h)
    requires forall r :: r in Targets(h) ==> r in v.cost && v.cost[r] < |h.reg| && h.reg[v.cost[r]] == Some(r)
    ensures Scanned(h, v, temps, |h.num|, false)
  {
    forall x | 0 <= x < |h.num| && v.rs[x].Some?
      ensures Allocated(v, x)
    {
      assert v.rs[x].value in Targets(h);
    }
    forall d | d in v.want
      ensures DemandOk(h, v, d) && NotSaved(h, v, d, |h.num|)
    {
      if d.0.R? { assert Allocated(v, d.1); }
    }
    forall r | r in ALL && r !in v.free
      ensures OwnerOk(h, v, temps, r)
    {
      assert Allocated(v, v.cost[r]);
    }
  }

  lemma NoSlotDemand(h: Inherited, v: HeadView, temps: set<Reg>, i: nat, pass3: bool)
    requires Scanned(h, v, temps, i + 1, pass3) && h.slot[i] == 0
    ensures forall d :: d in v.want ==> d.0 != M(h.slot[i])
  {
    forall d | d in v.want
      ensures d.0 != M(h.slot[i])
    {
      assert NotSaved(h, v, d, i + 1);
    }
  }

  lemma AllowFree(h: Inherited, v: HeadView, temps: set<Reg>, i: nat, pass3: bool, r: Reg)
    requires Reloaded(h, v, temps, i + 1, pass3) && r in v.allow
    ensures (v.free - {r}) + {r} == v.free
  {}
}
