/**
 Any number of guards over any number of locks, used in any order: what each lock holds is always exactly what the
 guards own.
 */
module GuardConservation {
  import opened Common
  import opened LockGuards

  type LockId = nat
  type GuardId = nat
  type Guards = map<GuardId, Guard<LockId>>

  datatype State = State(locks: map<LockId, RwLock>, unique: Guards, shared: Guards)

  const INITIAL := State(map[], map[], map[])

  /** The operations on guards, except `release`, which gives up ownership without unlocking. */
  datatype Step =
    | NewLock(l: LockId)
    | Default(kind: Kind, g: GuardId)
    | Acquire(kind: Kind, g: GuardId, l: LockId)   // the locking constructor
    | Lock(kind: Kind, g: GuardId)
    | Unlock(kind: Kind, g: GuardId)
    | Move(kind: Kind, g: GuardId, from: GuardId)  // the move constructor
    | MoveAssign(kind: Kind, g: GuardId, from: GuardId)
    | Swap(kind: Kind, g: GuardId, other: GuardId)
    | Destroy(kind: Kind, g: GuardId)

  function GuardsOf(s: State, kind: Kind): Guards {
    match kind case Unique => s.unique case Shared => s.shared
  }

  function WithGuards(s: State, kind: Kind, gs: Guards): State {
    match kind case Unique => s.(unique := gs) case Shared => s.(shared := gs)
  }

  /** The state of the guard's lock, if it has one. */
  function LockOf(s: State, guard: Guard<LockId>): RwLock {
    if guard.device.Some? && guard.device.value in s.locks then s.locks[guard.device.value] else FREE
  }

  /** Guard `g` is now `guard`, and the lock that it is associated with, if any, is now `l`. */
  function Put(s: State, kind: Kind, g: GuardId, guard: Guard<LockId>, l: RwLock): State {
    WithGuards(if guard.device.Some? && guard.device.value in s.locks then s.(locks := s.locks[guard.device.value := l]) else s,
               kind, GuardsOf(s, kind)[g := guard])
  }

  /** What lock() on the guard comes to. */
  function OutcomeOfLock(s: State, kind: Kind, g: GuardId): Outcome
    requires g in GuardsOf(s, kind)
  {
    Locking(GuardsOf(s, kind)[g], LockOf(s, GuardsOf(s, kind)[g]), kind).2
  }

  predicate Enabled(s: State, step: Step) {
    match step
    case NewLock(l) => l !in s.locks
    case Default(kind, g) => g !in GuardsOf(s, kind)
    case Acquire(kind, g, l) => g !in GuardsOf(s, kind) && l in s.locks && Available(s.locks[l], kind)
    case Lock(kind, g) => g in GuardsOf(s, kind)
    case Unlock(kind, g) => g in GuardsOf(s, kind)
    case Move(kind, g, from) => g !in GuardsOf(s, kind) && from in GuardsOf(s, kind)
    case MoveAssign(kind, g, from) => g in GuardsOf(s, kind) && from in GuardsOf(s, kind)
    case Swap(kind, g, other) => g in GuardsOf(s, kind) && other in GuardsOf(s, kind)
    case Destroy(kind, g) => g in GuardsOf(s, kind)
  }

  /** lock() on the guard `before`, which is or becomes guard `g`. */
  function DoLock(s: State, kind: Kind, g: GuardId, before: Guard<LockId>): State {
    var (guard, l, _) := Locking(before, LockOf(s, before), kind);
    Put(s, kind, g, guard, l)
  }

  function LetGo(s: State, kind: Kind, g: GuardId): State
    requires g in GuardsOf(s, kind)
  {
    var before := GuardsOf(s, kind)[g];
    var (guard, l) := Releasing(before, LockOf(s, before));
    Put(s, kind, g, guard, l)
  }

  /** What the guard `from` held is now `g`'s, and `from` is left unassociated. */
  function Moved(s: State, kind: Kind, g: GuardId, from: GuardId): State
    requires from in GuardsOf(s, kind)
  {
    WithGuards(s, kind, GuardsOf(s, kind)[g := GuardsOf(s, kind)[from]][from := Unassociated()])
  }

  function Apply(s: State, step: Step): State
    requires Enabled(s, step)
  {
    match step
    case NewLock(l) => s.(locks := s.locks[l := FREE])
    case Default(kind, g) => WithGuards(s, kind, GuardsOf(s, kind)[g := Unassociated()])
    case Acquire(kind, g, l) => DoLock(s, kind, g, Guard(Some(l), false))
    case Lock(kind, g) => DoLock(s, kind, g, GuardsOf(s, kind)[g])
    case Unlock(kind, g) => LetGo(s, kind, g)
    case Move(kind, g, from) => Moved(s, kind, g, from)
    case MoveAssign(kind, g, from) =>
      if g != from then Moved(LetGo(s, kind, g), kind, g, from)
      else if kind.Unique? then Moved(LetGo(s, kind, g), kind, g, from)  // unlocks itself and ends unassociated
      else s                                                              // swaps back what it moved out
    case Swap(kind, g, other) =>
      var gs := GuardsOf(s, kind);
      WithGuards(s, kind, gs[g := gs[other]][other := gs[g]])
    case Destroy(kind, g) =>
      var s' := LetGo(s, kind, g);
      WithGuards(s', kind, GuardsOf(s', kind) - {g})
  }

  function Exec(steps: seq<Step>): Option<State> {
    if steps == [] then Some(INITIAL)
    else
      var last := |steps| - 1;
      match Exec(steps[..last])
      case None => None
      case Some(s) => if Enabled(s, steps[last]) then Some(Apply(s, steps[last])) else None
  }

  // ---------------------------------------------------------------------------------------------------------
  // The invariant
  // ---------------------------------------------------------------------------------------------------------

  predicate Owns(g: Guard<LockId>, l: LockId) {
    g.owns && g.device == Some(l)
  }

  function Owners(gs: Guards, l: LockId): set<GuardId> {
    set g | g in gs && Owns(gs[g], l)
  }

  /** The lock's own count and flag say exactly which guards own it, and readers and a writer never hold it together. */
  ghost predicate LockInv(s: State, l: LockId)
    requires l in s.locks
  {
    && s.locks[l].readers == |Owners(s.shared, l)|
    && |Owners(s.unique, l)| == (if s.locks[l].writer then 1 else 0)
    && !(s.locks[l].writer && s.locks[l].readers > 0)
  }

  ghost predicate DevicesOk(s: State, gs: Guards) {
    forall g :: g in gs ==> (gs[g].owns ==> gs[g].device.Some?) && (gs[g].device.Some? ==> gs[g].device.value in s.locks)
  }

  ghost predicate Inv(s: State) {
    && DevicesOk(s, s.unique) && DevicesOk(s, s.shared)
    && (forall l :: l in s.locks ==> LockInv(s, l))
  }

  function Weight(gs: Guards, g: GuardId, l: LockId): nat {
    if g in gs && Owns(gs[g], l) then 1 else 0
  }

  /** Reassigning one guard changes the number of owners by what it owned before and owns now. */
  lemma OwnersAfterSet(gs: Guards, g: GuardId, guard: Guard<LockId>, l: LockId)
    ensures |Owners(gs[g := guard], l)| == |Owners(gs, l)| - Weight(gs, g, l) + (if Owns(guard, l) then 1 else 0)
  {
    var before, after := Owners(gs, l), Owners(gs[g := guard], l);
    assert after - {g} == before - {g};
    assert g in before <==> Weight(gs, g, l) == 1;
    assert |before - {g}| == |before| - Weight(gs, g, l);
    assert |after - {g}| == |after| - (if Owns(guard, l) then 1 else 0);
  }

  lemma OwnersAfterDrop(gs: Guards, g: GuardId, l: LockId)
    requires Weight(gs, g, l) == 0
    ensures Owners(gs - {g}, l) == Owners(gs, l)
  {
  }

  lemma LockKeepsInv(s: State, kind: Kind, g: GuardId, before: Guard<LockId>)
    requires Inv(s) && (if g in GuardsOf(s, kind) then GuardsOf(s, kind)[g] == before else !before.owns)
    requires before.device.Some? ==> before.device.value in s.locks
    ensures Inv(DoLock(s, kind, g, before))
  {
    var guard := Locking(before, LockOf(s, before), kind).0;
    forall k | k in s.locks
      ensures LockInv(DoLock(s, kind, g, before), k)
    {
      assert LockInv(s, k);
      OwnersAfterSet(GuardsOf(s, kind), g, guard, k);
    }
  }

  /** Letting go takes away the guard's ownership and touches no other guard. */
  lemma LetGoShape(s: State, kind: Kind, g: GuardId)
    requires DevicesOk(s, GuardsOf(s, kind)) && g in GuardsOf(s, kind)
    ensures var s' := LetGo(s, kind, g);
            && s'.locks.Keys == s.locks.Keys && GuardsOf(s', kind) == GuardsOf(s, kind)[g := GuardsOf(s, kind)[g].(owns := false)]
            && (forall other :: other != kind ==> GuardsOf(s', other) == GuardsOf(s, other))
  {
  }

  lemma LetGoKeepsInv(s: State, kind: Kind, g: GuardId)
    requires Inv(s) && g in GuardsOf(s, kind)
    ensures var s' := LetGo(s, kind, g);
            && Inv(s') && s'.locks.Keys == s.locks.Keys
            && GuardsOf(s', kind) == GuardsOf(s, kind)[g := GuardsOf(s, kind)[g].(owns := false)]
  {
    LetGoShape(s, kind, g);
    hide LetGo;
    forall k | k in s.locks
      ensures LockInv(LetGo(s, kind, g), k)
    {
      assert LockInv(s, k);
      LetGoKeepsLock(s, kind, g, k);
    }
    hide LockInv;
    assert forall other :: DevicesOk(LetGo(s, kind, g), GuardsOf(LetGo(s, kind, g), other)) by {
      assert DevicesOk(s, GuardsOf(s, Unique)) && DevicesOk(s, GuardsOf(s, Shared));
    }
    assert GuardsOf(LetGo(s, kind, g), Unique) == LetGo(s, kind, g).unique;
    assert GuardsOf(LetGo(s, kind, g), Shared) == LetGo(s, kind, g).shared;
    hide DevicesOk;
  }

  lemma LetGoKeepsLock(s: State, kind: Kind, g: GuardId, k: LockId)
    requires DevicesOk(s, GuardsOf(s, kind)) && g in GuardsOf(s, kind) && k in s.locks && LockInv(s, k)
    ensures k in LetGo(s, kind, g).locks && LockInv(LetGo(s, kind, g), k)
  {
    LetGoShape(s, kind, g);
    OwnersAfterSet(GuardsOf(s, kind), g, GuardsOf(s, kind)[g].(owns := false), k);
    OwnerIsCounted(s, kind, g, k);
    hide Owners, DevicesOk;
  }

  /** A guard that owns the lock is seen by the lock. */
  lemma OwnerIsCounted(s: State, kind: Kind, g: GuardId, l: LockId)
    requires l in s.locks && LockInv(s, l) && g in GuardsOf(s, kind)
    ensures Owns(GuardsOf(s, kind)[g], l) ==> if kind.Unique? then s.locks[l].writer else s.locks[l].readers > 0
  {
    if Owns(GuardsOf(s, kind)[g], l) {
      assert g in Owners(GuardsOf(s, kind), l);
    }
  }

  lemma MovedKeepsInv(s: State, kind: Kind, g: GuardId, from: GuardId)
    requires Inv(s) && from in GuardsOf(s, kind) && (g in GuardsOf(s, kind) ==> !GuardsOf(s, kind)[g].owns)
    ensures Inv(Moved(s, kind, g, from))
  {
    var gs := GuardsOf(s, kind);
    forall l | l in s.locks
      ensures LockInv(Moved(s, kind, g, from), l)
    {
      assert LockInv(s, l);
      OwnersAfterSet(gs, g, gs[from], l);
      OwnersAfterSet(gs[g := gs[from]], from, Unassociated(), l);
    }
  }

  lemma SwapKeepsInv(s: State, kind: Kind, g: GuardId, other: GuardId)
    requires Inv(s) && Enabled(s, Swap(kind, g, other))
    ensures Inv(Apply(s, Swap(kind, g, other)))
  {
    var gs := GuardsOf(s, kind);
    forall l | l in s.locks
      ensures LockInv(Apply(s, Swap(kind, g, other)), l)
    {
      assert LockInv(s, l);
      OwnersAfterSet(gs, g, gs[other], l);
      OwnersAfterSet(gs[g := gs[other]], other, gs[g], l);
    }
  }

  lemma NewKeepsInv(s: State, step: Step)
    requires Inv(s) && Enabled(s, step) && (step.NewLock? || step.Default?)
    ensures Inv(Apply(s, step))
  {
    match step
    case NewLock(l) =>
      assert Owners(s.unique, l) == {} && Owners(s.shared, l) == {};
      assert forall k :: k in s.locks ==> LockInv(s, k);
    case Default(kind, g) =>
      forall l | l in s.locks
        ensures LockInv(Apply(s, step), l)
      {
        assert LockInv(s, l);
        OwnersAfterSet(GuardsOf(s, kind), g, Unassociated(), l);
      }
  }

  lemma DropKeepsInv(s: State, kind: Kind, g: GuardId)
    requires Inv(s) && g in GuardsOf(s, kind) && !GuardsOf(s, kind)[g].owns
    ensures Inv(WithGuards(s, kind, GuardsOf(s, kind) - {g}))
  {
    forall l | l in s.locks
      ensures LockInv(WithGuards(s, kind, GuardsOf(s, kind) - {g}), l)
    {
      assert LockInv(s, l);
      OwnersAfterDrop(GuardsOf(s, kind), g, l);
    }
  }

  lemma DeviceIsALock(s: State, kind: Kind, g: GuardId)
    requires DevicesOk(s, GuardsOf(s, kind)) && g in GuardsOf(s, kind)
    ensures GuardsOf(s, kind)[g].device.Some? ==> GuardsOf(s, kind)[g].device.value in s.locks
  {
  }

  lemma StepKeepsInv(s: State, step: Step)
    requires Inv(s) && Enabled(s, step)
    ensures Inv(Apply(s, step))
  {
    hide DevicesOk, LockInv;
    match step
    case NewLock(_) => NewKeepsInv(s, step);
    case Default(_, _) => NewKeepsInv(s, step);
    case Acquire(kind, g, l) => LockKeepsInv(s, kind, g, Guard(Some(l), false));
    case Lock(kind, g) =>
      assert DevicesOk(s, GuardsOf(s, kind));
      DeviceIsALock(s, kind, g);
      LockKeepsInv(s, kind, g, GuardsOf(s, kind)[g]);
    case Unlock(kind, g) => LetGoKeepsInv(s, kind, g);
    case Move(kind, g, from) => MovedKeepsInv(s, kind, g, from);
    case MoveAssign(kind, g, from) =>
      if g != from || kind.Unique? {
        LetGoKeepsInv(s, kind, g);
        MovedKeepsInv(LetGo(s, kind, g), kind, g, from);
      }
    case Swap(kind, g, other) => SwapKeepsInv(s, kind, g, other);
    case Destroy(kind, g) =>
      LetGoKeepsInv(s, kind, g);
      DropKeepsInv(LetGo(s, kind, g), kind, g);
  }

  /** Conservation of ownership over every run. */
  lemma {:induction false} RunsConserveOwnership(steps: seq<Step>)
    requires Exec(steps).Some?
    ensures Inv(Exec(steps).value)
  {
    if steps != [] {
      hide Enabled, Apply, Inv;
      var last := |steps| - 1;
      RunsConserveOwnership(steps[..last]);
      StepKeepsInv(Exec(steps[..last]).value, steps[last]);
    } else {
      assert Owners(INITIAL.unique, 0) == {};
    }
  }

  /** Two guards never own one lock together unless both are shared. */
  lemma MutualExclusion(steps: seq<Step>, s: State, l: LockId, g: GuardId, kind: Kind, h: GuardId)
    requires Exec(steps) == Some(s) && g in s.unique && Owns(s.unique[g], l)
    requires h in GuardsOf(s, kind) && (kind.Shared? || h != g)
    ensures !Owns(GuardsOf(s, kind)[h], l)
  {
    RunsConserveOwnership(steps);
    assert l in s.locks && LockInv(s, l);
    OwnerIsCounted(s, Unique, g, l);
    OwnerIsCounted(s, kind, h, l);
    if kind.Unique? && Owns(s.unique[h], l) {
      assert {g, h} <= Owners(s.unique, l);
      SubsetIsNotLarger({g, h}, Owners(s.unique, l));
    }
  }

  lemma SubsetIsNotLarger(a: set<GuardId>, b: set<GuardId>)
    requires a <= b
    ensures |a| <= |b|
  {
    assert b == a + (b - a);
  }

  /** Once every guard is destroyed, every lock is free. */
  lemma AllDestroyedAllFree(steps: seq<Step>, s: State, l: LockId)
    requires Exec(steps) == Some(s) && s.unique == map[] && s.shared == map[] && l in s.locks
    ensures s.locks[l] == FREE
  {
    RunsConserveOwnership(steps);
    assert LockInv(s, l);
    assert Owners(s.unique, l) == {} && Owners(s.shared, l) == {};
  }

  /** A call of lock() waits exactly when some guard owns the lock in a way that excludes the caller. */
  lemma WaitsExactly(steps: seq<Step>, s: State, kind: Kind, g: GuardId)
    requires Exec(steps) == Some(s) && g in GuardsOf(s, kind)
    ensures OutcomeOfLock(s, kind, g) == Waits <==>
              var guard := GuardsOf(s, kind)[g];
              && guard.device.Some? && !guard.owns
              && (|| (exists h :: h in s.unique && Owns(s.unique[h], guard.device.value))
                  || (kind.Unique? && exists h :: h in s.shared && Owns(s.shared[h], guard.device.value)))
  {
    RunsConserveOwnership(steps);
    var guard := GuardsOf(s, kind)[g];
    if guard.device.Some? {
      var l := guard.device.value;
      assert l in s.locks && LockInv(s, l);
      OwnersExist(s.unique, l);
      OwnersExist(s.shared, l);
    }
  }

  /** Taking the lock shared once more under a guard that owns it shared never waits: readers do not hold each other up. */
  lemma NestedReadNeverWaits(steps: seq<Step>, s: State, g: GuardId, h: GuardId, l: LockId)
    requires Exec(steps) == Some(s) && g in s.shared && h in s.shared && Owns(s.shared[h], l)
    requires s.shared[g].device == Some(l) && !s.shared[g].owns
    ensures OutcomeOfLock(s, Shared, g) == Done
  {
    WaitsExactly(steps, s, Shared, g);
    forall k | k in s.unique
      ensures !Owns(s.unique[k], l)
    {
      if Owns(s.unique[k], l) {
        MutualExclusion(steps, s, l, k, Shared, h);
      }
    }
  }

  lemma OwnersExist(gs: Guards, l: LockId)
    ensures |Owners(gs, l)| > 0 <==> exists h :: h in gs && Owns(gs[h], l)
  {
    if |Owners(gs, l)| > 0 {
      var h :| h in Owners(gs, l);
    }
    if h :| h in gs && Owns(gs[h], l) {
      assert h in Owners(gs, l);
    }
  }
}
