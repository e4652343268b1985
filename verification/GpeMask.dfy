/**
 Masking a general-purpose event while interrupts and deferred work race with it
 (section 5.6.4 of ACPI 6.5).  One GPE register is modelled; a register byte is
 the set of event numbers whose bit is one.

 Workers are calls of set_gpe_state made from interrupt or work context; any
 number may be in flight.  The manager is the thread inside the event lock: it
 masks, unmasks, adds and removes users, and runs the bulk actions.  Every
 action is one access to shared state.  The mask protocol relies on the wait
 primitive draining all work that was in flight when the wait began; that is
 what `DrainDone` says, and it is the only thing assumed about it.
 */
module GpeMask {

  /** The position of an event's bit in its register. */
  type Event = e: nat | e < 8
  type Bits = set<Event>

  /** All bits of the register. */
  const ALL: Bits := {0, 1, 2, 3, 4, 5, 6, 7}

  datatype GpeState = Enable | EnableConditionally | Disable

  /** One set_gpe_state call in flight. */
  datatype CallPc =
    | CheckMasked            // the unlocked look at masked_mask
    | CheckCurrent           // the unlocked look at current_mask
    | WantLock
    | Locked
    | HaveRead(value: Bits)  // inside the spinlock, enable register loaded
    | Done

  datatype Call = Call(event: Event, state: GpeState, pc: CallPc)

  datatype Agent = Worker(id: nat) | Manager

  datatype Spinlock = Free | HeldBy(who: Agent)

  /** What the manager is in the middle of. */
  datatype Task =
    | NoTask
    | Calling                                  // running a set_gpe_state call of its own
    | FirstDrain(event: Event, busy: set<nat>) // masked, waiting for these workers
    | Disabling(event: Event)                  // running set_gpe_state(DISABLED)
    | LastDrain(event: Event, busy: set<nat>)
    | BulkWrite(value: Bits, forWake: bool)    // current_mask set, register not yet
    | BlockDrain(busy: set<nat>)               // the whole block masked, waiting for these workers
    | BlockWriting                             // about to clear the register with a plain write
    | BlockLastDrain(busy: set<nat>)

  datatype State = State(
    masked: Bits,
    runtime: Bits,
    current: Bits,
    wake: Bits,
    enable: Bits,             // the hardware enable register
    lock: Spinlock,
    calls: map<Agent, Call>,
    nextId: nat,               // worker ids below this have been used
    task: Task,
    settled: Bits)            // disabled by their mask call; not unmasked or armed and written since

  // -- One set_gpe_state call ---------------------------------------------------

  predicate CallEnabled(s: State, who: Agent) {
    who in s.calls && (s.calls[who].pc.WantLock? ==> s.lock == Free) && !s.calls[who].pc.Done?
  }

  function Goto(s: State, who: Agent, pc: CallPc): State
    requires who in s.calls
  {
    s.(calls := s.calls[who := s.calls[who].(pc := pc)])
  }

  function NewEnable(c: Call, value: Bits): Bits {
    if c.state.Disable? then value - {c.event} else value + {c.event}
  }

  function CallApply(s: State, who: Agent): State
    requires CallEnabled(s, who)
  {
    var c := s.calls[who];
    match c.pc
    case CheckMasked =>
      Goto(s, who, if c.state != Disable && c.event in s.masked then Done
                   else if c.state.EnableConditionally? then CheckCurrent
                   else WantLock)
    case CheckCurrent => Goto(s, who, if c.event in s.current then WantLock else Done)
    case WantLock => Goto(s, who, Locked).(lock := HeldBy(who))
    case Locked => Goto(s, who, HaveRead(s.enable))
    case HaveRead(value) => Goto(s, who, Done).(enable := NewEnable(c, value), lock := Free)
    case Done => s
  }

  // -- Workers and the manager --------------------------------------------------

  datatype Action =
    | CallStep(who: Agent)
    | Spawn(event: Event, state: GpeState)  // an interrupt or work item starts a call
    | Retire(id: nat)                       // ... and returns from it
    | BeginMask(e: Event) | FirstDrainDone | Disabled | LastDrainDone
    | BeginUnmask(e: Event, reenable: bool)
    | AddUser(e: Event) | RemoveUser(e: Event) | CallReturned
    | BulkDisable | BulkRuntime | BulkWake | BulkCommit
    | ArmWake(e: Event) | DisarmWake(e: Event)
    | BlockMask | BlockDrained | BlockWrite | BlockReturned

  function InFlight(s: State): set<nat> {
    set a | a in s.calls && a.Worker? :: a.id
  }

  predicate ManagerIdle(s: State) { s.task == NoTask && Manager !in s.calls }

  predicate ManagerCallDone(s: State) { Manager in s.calls && s.calls[Manager].pc.Done? }

  predicate Enabled(s: State, a: Action) {
    match a
    case CallStep(who) => CallEnabled(s, who)
    case Spawn(_, _) => true
    case Retire(id) => Worker(id) in s.calls && s.calls[Worker(id)].pc.Done?
    case BeginMask(e) => ManagerIdle(s) && e !in s.masked
    case FirstDrainDone => s.task.FirstDrain? && s.task.busy !! InFlight(s) && Manager !in s.calls
    case Disabled => s.task.Disabling? && ManagerCallDone(s)
    case LastDrainDone => s.task.LastDrain? && s.task.busy !! InFlight(s)
    case BeginUnmask(e, _) => ManagerIdle(s) && e in s.masked
    case AddUser(_) => ManagerIdle(s)
    case RemoveUser(_) => ManagerIdle(s)
    case CallReturned => s.task.Calling? && ManagerCallDone(s)
    case BulkDisable => ManagerIdle(s)
    case BulkRuntime => ManagerIdle(s)
    case BulkWake => ManagerIdle(s)
    case BulkCommit => s.task.BulkWrite?
    case ArmWake(_) => ManagerIdle(s)
    case DisarmWake(_) => ManagerIdle(s)
    case BlockMask => ManagerIdle(s)
    case BlockDrained => s.task.BlockDrain? && s.task.busy !! InFlight(s)
    case BlockWrite => s.task.BlockWriting?
    case BlockReturned => s.task.BlockLastDrain? && s.task.busy !! InFlight(s)
  }

  function Start(s: State, who: Agent, e: Event, st: GpeState): State {
    s.(calls := s.calls[who := Call(e, st, CheckMasked)])
  }

  function Apply(s: State, a: Action): State
    requires Enabled(s, a)
  {
    match a
    case CallStep(who) => CallApply(s, who)
    case Spawn(e, st) => Start(s, Worker(s.nextId), e, st).(nextId := s.nextId + 1)
    case Retire(id) => s.(calls := s.calls - {Worker(id)})
    case BeginMask(e) => s.(masked := s.masked + {e}, task := FirstDrain(e, InFlight(s)))
    case FirstDrainDone => Start(s, Manager, s.task.event, Disable).(task := Disabling(s.task.event))
    case Disabled =>
      s.(calls := s.calls - {Manager}, task := LastDrain(s.task.event, InFlight(s)),
         settled := s.settled + {s.task.event})
    case LastDrainDone => s.(task := NoTask)
    case BeginUnmask(e, reenable) =>
      var s1 := s.(masked := s.masked - {e}, settled := s.settled - {e});
      if reenable then Start(s1, Manager, e, EnableConditionally).(task := Calling) else s1
    case AddUser(e) =>
      Start(s, Manager, e, Enable).(runtime := s.runtime + {e}, current := s.runtime + {e}, task := Calling)
    case RemoveUser(e) =>
      Start(s, Manager, e, Disable).(runtime := s.runtime - {e}, current := s.runtime - {e}, task := Calling)
    case CallReturned => s.(calls := s.calls - {Manager}, task := NoTask)
    case BulkDisable => s.(current := {}, task := BulkWrite({}, false))
    case BulkRuntime => s.(current := s.runtime - s.masked, task := BulkWrite(s.runtime - s.masked, false))
    case BulkWake => s.(current := s.wake, task := BulkWrite(s.wake, true))
    case BulkCommit => s.(enable := s.task.value, task := NoTask, settled := s.settled - s.task.value)
    case ArmWake(e) => s.(wake := s.wake + {e})
    case DisarmWake(e) => s.(wake := s.wake * {e})
    case BlockMask => if s.current == {} then s else s.(masked := ALL, task := BlockDrain(InFlight(s)))
    case BlockDrained => s.(task := BlockWriting)
    case BlockWrite => s.(enable := {}, task := BlockLastDrain(InFlight(s)))
    case BlockReturned => s.(task := NoTask)
  }

  ghost predicate Init(s: State) {
    s.masked == {} && s.calls == map[] && s.lock == Free && s.task == NoTask && s.settled == {}
  }

  ghost predicate IsRun(run: seq<State>, acts: seq<Action>) {
    && |run| == |acts| + 1
    && Init(run[0])
    && forall i :: 0 <= i < |acts| ==> Enabled(run[i], acts[i]) && run[i+1] == Apply(run[i], acts[i])
  }

  /** One more step of a run, from `s` to `t`. */
  lemma Go(run: seq<State>, acts: seq<Action>, s: State, a: Action, t: State) returns (run': seq<State>, acts': seq<Action>)
    requires IsRun(run, acts) && run[|run|-1] == s && Enabled(s, a) && Apply(s, a) == t
    ensures IsRun(run', acts') && run'[0] == run[0] && |run'| == |run| + 1 && run'[|run'|-1] == t && acts' == acts + [a]
  {
    run', acts' := run + [t], acts + [a];
  }

  lemma NoWorkers(s: State)
    requires forall a :: a in s.calls ==> a == Manager
    ensures InFlight(s) == {}
  {}

  lemma OneWorker(s: State, id: nat)
    requires forall a :: a in s.calls <==> a == Worker(id)
    ensures InFlight(s) == {id}
  {
    assert Worker(id) in s.calls;
  }

  lemma NewRun(s: State)
    requires Init(s)
    ensures IsRun([s], [])
    ensures s.masked == {} && s.calls == map[] && s.lock == Free && s.task == NoTask && s.settled == {}
  {}

  // -- Invariant ----------------------------------------------------------------

  /** Past the unlocked checks and about to set the bit of its event. */
  predicate WillEnable(c: Call, e: Event) {
    c.event == e && c.state != Disable && !c.pc.CheckMasked? && !c.pc.Done?
  }

  predicate Enabler(c: Call) { WillEnable(c, c.event) }

  ghost predicate OnlyDisablers(s: State) { forall a :: a in s.calls ==> !Enabler(s.calls[a]) }

  ghost predicate NobodyEnables(s: State, e: Event) {
    forall a :: a in s.calls ==> !WillEnable(s.calls[a], e)
  }

  /** The spinlock is held exactly by the call inside it. */
  ghost predicate LockInv(s: State) {
    && (forall a :: a in s.calls && (s.calls[a].pc.Locked? || s.calls[a].pc.HaveRead?) ==> s.lock == HeldBy(a))
    && (forall a :: a in s.calls && a.Worker? ==> a.id < s.nextId)
  }

  /** Masked events for which no racing enabler is left. */
  function Sealed(s: State): Bits {
    if s.task.Disabling? then s.settled + {s.task.event} else s.settled
  }

  /** Sealed events whose bit has been cleared. */
  function Cleared(s: State): Bits {
    if s.task.Disabling? && ManagerCallDone(s) then s.settled + {s.task.event} else s.settled
  }

  ghost predicate TaskInv(s: State) {
    match s.task
    case NoTask => Manager !in s.calls
    case Calling => true
    case FirstDrain(e, busy) =>
      && Manager !in s.calls && e in s.masked
      && (forall a :: a in s.calls && WillEnable(s.calls[a], e) ==> a.Worker? && a.id in busy)
    case Disabling(e) =>
      && e in s.masked && Manager in s.calls
      && s.calls[Manager].event == e && s.calls[Manager].state == Disable
      && !s.calls[Manager].pc.CheckCurrent?
    case LastDrain(e, _) => Manager !in s.calls && e in s.settled
    case BulkWrite(value, forWake) => Manager !in s.calls && if forWake then value == s.wake else value !! s.masked
    case BlockDrain(busy) =>
      && Manager !in s.calls && s.masked == ALL
      && (forall a :: a in s.calls && Enabler(s.calls[a]) ==> a.Worker? && a.id in busy)
    case BlockWriting => Manager !in s.calls && s.masked == ALL && OnlyDisablers(s)
    case BlockLastDrain(_) => Manager !in s.calls
  }

  ghost predicate SealedInv(s: State) {
    && s.settled <= s.masked
    && Cleared(s) !! s.enable
    && (forall e :: e in Sealed(s) ==> NobodyEnables(s, e))
    && (forall a :: a in s.calls && s.calls[a].pc.HaveRead? ==> Cleared(s) !! s.calls[a].pc.value)
  }

  ghost predicate Inv(s: State) { LockInv(s) && TaskInv(s) && SealedInv(s) }

  // -- Preservation -------------------------------------------------------------

  lemma CallStepKeepsLock(s: State, who: Agent)
    requires LockInv(s) && CallEnabled(s, who)
    ensures LockInv(CallApply(s, who))
  {}

  lemma CallStepKeepsTask(s: State, who: Agent)
    requires Inv(s) && CallEnabled(s, who)
    ensures TaskInv(CallApply(s, who))
  {
    var s' := CallApply(s, who);
    assert forall a :: a in s.calls && a != who ==> s'.calls[a] == s.calls[a];
  }

  lemma CallStepKeepsSealed(s: State, who: Agent)
    requires Inv(s) && CallEnabled(s, who)
    ensures SealedInv(CallApply(s, who))
  {
    var s', c := CallApply(s, who), s.calls[who];
    assert forall a :: a in s.calls && a != who ==> s'.calls[a] == s.calls[a];
    forall e | e in Sealed(s') ensures NobodyEnables(s', e) {
      assert e in Sealed(s) && NobodyEnables(s, e);
      assert !WillEnable(s'.calls[who], e);
    }
    if c.pc.HaveRead? {
      forall e | e in Cleared(s') ensures e !in s'.enable {
        assert e in Sealed(s) && NobodyEnables(s, e);
        assert !WillEnable(c, e);
      }
    }
  }

  lemma CallStepKeeps(s: State, who: Agent)
    requires Inv(s) && CallEnabled(s, who)
    ensures Inv(CallApply(s, who))
  {
    CallStepKeepsLock(s, who);
    CallStepKeepsTask(s, who);
    CallStepKeepsSealed(s, who);
  }

  /** The drain is over, so nobody is left who looked before the mask was set. */
  lemma DrainSeals(s: State)
    requires Inv(s) && Enabled(s, FirstDrainDone)
    ensures NobodyEnables(s, s.task.event)
  {
    assert forall a :: a in s.calls && a.Worker? ==> a.id in InFlight(s);
  }

  /** Masking an event finds every racing enabler among the workers in flight. */
  lemma BeginMaskKeeps(s: State, e: Event)
    requires Inv(s) && Enabled(s, BeginMask(e))
    ensures Inv(Apply(s, BeginMask(e)))
  {
    var s' := Apply(s, BeginMask(e));
    forall f | f in Sealed(s') ensures NobodyEnables(s', f) {
      assert NobodyEnables(s, f);
    }
    forall a | a in s'.calls && WillEnable(s'.calls[a], e) ensures a.Worker? && a.id in InFlight(s) {
      assert a in s.calls;
    }
  }

  /** Steps that only start or retire calls: a call that has just started has
      not looked at the mask yet. */
  lemma StartKeepsSealed(s: State, s': State)
    requires Inv(s)
    requires s'.settled <= s.settled && s'.settled <= s'.masked && s'.enable == s.enable
    requires Sealed(s') <= Sealed(s) && Cleared(s') <= Cleared(s)
    requires forall a :: a in s'.calls ==> (a in s.calls && s'.calls[a] == s.calls[a]) || s'.calls[a].pc.CheckMasked?
    ensures SealedInv(s')
  {
    forall e | e in Sealed(s') ensures NobodyEnables(s', e) {
      assert NobodyEnables(s, e);
    }
  }

  lemma ManagerStepKeeps(s: State, a: Action)
    requires Inv(s) && Enabled(s, a) && !a.CallStep? && !a.BeginMask? && !a.FirstDrainDone? && !a.BulkCommit? && !a.Disabled?
    requires !a.BlockMask? && !a.BlockDrained? && !a.BlockWrite?
    ensures Inv(Apply(s, a))
  {
    StartKeepsSealed(s, Apply(s, a));
  }

  lemma BlockStepKeeps(s: State, a: Action)
    requires Inv(s) && Enabled(s, a) && (a.BlockMask? || a.BlockDrained? || a.BlockWrite?)
    ensures Inv(Apply(s, a))
  {
    var s' := Apply(s, a);
    forall e | e in Sealed(s') ensures NobodyEnables(s', e) { assert NobodyEnables(s, e); }
    assert forall b :: b in s.calls && b.Worker? ==> b.id in InFlight(s);
  }

  lemma FirstDrainDoneKeeps(s: State)
    requires Inv(s) && Enabled(s, FirstDrainDone)
    ensures Inv(Apply(s, FirstDrainDone))
  {
    DrainSeals(s);
    var s' := Apply(s, FirstDrainDone);
    forall e | e in Sealed(s') ensures NobodyEnables(s', e) {
      assert NobodyEnables(s, e);
    }
  }

  lemma DisabledKeeps(s: State)
    requires Inv(s) && Enabled(s, Disabled)
    ensures Inv(Apply(s, Disabled))
  {
    var s' := Apply(s, Disabled);
    assert Cleared(s') == Cleared(s) && Sealed(s') == Sealed(s);
    forall e | e in Sealed(s') ensures NobodyEnables(s', e) {
      assert NobodyEnables(s, e);
    }
  }

  lemma BulkCommitKeeps(s: State)
    requires Inv(s) && Enabled(s, BulkCommit)
    ensures Inv(Apply(s, BulkCommit))
  {
    var s' := Apply(s, BulkCommit);
    forall e | e in Sealed(s') ensures NobodyEnables(s', e) {
      assert NobodyEnables(s, e);
    }
  }

  lemma StepKeeps(s: State, a: Action)
    requires Inv(s) && Enabled(s, a)
    ensures Inv(Apply(s, a))
  {
    match a
    case CallStep(who) => CallStepKeeps(s, who);
    case BeginMask(e) => BeginMaskKeeps(s, e);
    case FirstDrainDone => FirstDrainDoneKeeps(s);
    case Disabled => DisabledKeeps(s);
    case BulkCommit => BulkCommitKeeps(s);
    case BlockMask => BlockStepKeeps(s, a);
    case BlockDrained => BlockStepKeeps(s, a);
    case BlockWrite => BlockStepKeeps(s, a);
    case _ => ManagerStepKeeps(s, a);
  }

  lemma {:induction false} RunKeeps(run: seq<State>, acts: seq<Action>, i: nat)
    requires IsRun(run, acts) && i < |run|
    ensures Inv(run[i])
  {
    if i > 0 {
      RunKeeps(run, acts, i - 1);
      assert run[i] == Apply(run[i-1], acts[i-1]);
      StepKeeps(run[i-1], acts[i-1]);
    }
  }

  // -- Main results ---------------------------------------------------------------

  ghost predicate NoUnmask(acts: seq<Action>, e: Event, from: nat, to: nat) {
    forall k :: from <= k < to && k < |acts| && acts[k].BeginUnmask? ==> acts[k].e != e
  }

  /** No wake action is committed while `e` is armed. */
  ghost predicate NoWakeOf(run: seq<State>, acts: seq<Action>, e: Event, from: nat, to: nat)
    requires |run| == |acts| + 1
  {
    forall k :: from <= k < to && k < |acts| && acts[k].BulkCommit? && run[k].task.BulkWrite? && run[k].task.forWake ==> e !in run[k].wake
  }

  /** Only an unmask of the event, or a wake action while it is armed, takes it out of
      the settled set. */
  lemma {:induction false} SettledUntil(run: seq<State>, acts: seq<Action>, e: Event, i: nat, j: nat)
    requires IsRun(run, acts) && i <= j < |run| && NoUnmask(acts, e, i, j) && NoWakeOf(run, acts, e, i, j)
    requires e in run[i].settled
    ensures e in run[j].settled
    decreases j - i
  {
    if i < j {
      assert run[i+1] == Apply(run[i], acts[i]);
      RunKeeps(run, acts, i);
      SettledUntil(run, acts, e, i + 1, j);
    }
  }

  /** Once the mask call for `e` has returned, the hardware enable bit is clear, and
      until `e` is unmasked it stays clear, whatever calls were already past the unlocked
      check and whatever happens to the other bits, exactly if no wake action is
      committed while `e` is armed. */
  lemma MaskedStaysDisabledIff(run: seq<State>, acts: seq<Action>, e: Event, i: nat, n: nat)
    requires IsRun(run, acts) && i < n < |run| && NoUnmask(acts, e, i, n)
    requires acts[i] == LastDrainDone && run[i].task.event == e
    ensures (forall j :: i < j <= n ==> e !in run[j].enable) <==> NoWakeOf(run, acts, e, i, n)
  {
    RunKeeps(run, acts, i);
    assert run[i+1] == Apply(run[i], acts[i]);
    if NoWakeOf(run, acts, e, i, n) {
      forall j | i < j <= n ensures e !in run[j].enable {
        SettledUntil(run, acts, e, i + 1, j);
        RunKeeps(run, acts, j);
      }
    } else {
      var k :| i <= k < n && acts[k].BulkCommit? && run[k].task.BulkWrite? && run[k].task.forWake && e in run[k].wake;
      RunKeeps(run, acts, k);
      assert run[k+1] == Apply(run[k], acts[k]);
      assert e in run[k+1].enable;
    }
  }

  /** Event 0 is armed for wake and masked; when the mask call has returned, the wake
      action enables it again. */
  lemma WakeEnablesMasked(s0: State) returns (run: seq<State>, acts: seq<Action>)
    requires Init(s0)
    ensures IsRun(run, acts) && run[0] == s0 && |acts| == 11 && acts[8] == LastDrainDone && NoUnmask(acts, 0, 0, 11)
    ensures 0 in run[11].masked && 0 in run[11].enable
  {
    hide IsRun, Init, InFlight;
    NewRun(s0);
    var m, c := CallStep(Manager), Call(0, Disable, CheckMasked);
    var s1 := s0.(wake := s0.wake + {0});
    var s2 := s1.(masked := {0}, task := FirstDrain(0, {}));
    var s3 := s2.(task := Disabling(0), calls := map[Manager := c]);
    var s4 := s3.(calls := map[Manager := c.(pc := WantLock)]);
    var s5 := s4.(calls := map[Manager := c.(pc := Locked)], lock := HeldBy(Manager));
    var s6 := s5.(calls := map[Manager := c.(pc := HaveRead(s0.enable))]);
    var s7 := s6.(calls := map[Manager := c.(pc := Done)], lock := Free, enable := s0.enable - {0});
    var s8 := s7.(calls := map[], task := LastDrain(0, {}), settled := {0});
    var s9 := s8.(task := NoTask);
    var s10 := s9.(current := s1.wake, task := BulkWrite(s1.wake, true));
    var s11 := s10.(enable := s1.wake, task := NoTask, settled := {});
    run, acts := Go([s0], [], s0, ArmWake(0), s1);
    NoWorkers(s1);
    run, acts := Go(run, acts, s1, BeginMask(0), s2);
    run, acts := Go(run, acts, s2, FirstDrainDone, s3);
    run, acts := Go(run, acts, s3, m, s4);
    run, acts := Go(run, acts, s4, m, s5);
    run, acts := Go(run, acts, s5, m, s6);
    run, acts := Go(run, acts, s6, m, s7);
    NoWorkers(s7);
    run, acts := Go(run, acts, s7, Disabled, s8);
    run, acts := Go(run, acts, s8, LastDrainDone, s9);
    run, acts := Go(run, acts, s9, BulkWake, s10);
    run, acts := Go(run, acts, s10, BulkCommit, s11);
    assert acts == [ArmWake(0), BeginMask(0), FirstDrainDone, m, m, m, m, Disabled, LastDrainDone, BulkWake, BulkCommit];
  }

  // -- Which events are armed --------------------------------------------------------

  /** Since `from`, events were disarmed only in calls that name `e` itself. */
  ghost predicate OnlyDisarmed(acts: seq<Action>, e: Event, from: nat, to: nat) {
    forall m :: from <= m < to && m < |acts| && acts[m].DisarmWake? ==> acts[m].e == e
  }

  /** Disarming `e` keeps the bit of `e` and drops the bits of all other events: an
      event is armed exactly if no other event has been disarmed since it was armed. */
  lemma {:induction false} ArmedMeans(run: seq<State>, acts: seq<Action>, e: Event, n: nat)
    requires IsRun(run, acts) && n < |run|
    ensures e in run[n].wake <==>
      || (e in run[0].wake && OnlyDisarmed(acts, e, 0, n))
      || exists k :: 0 <= k < n && acts[k] == ArmWake(e) && OnlyDisarmed(acts, e, k, n)
  {
    if n > 0 {
      ArmedMeans(run, acts, e, n - 1);
      var a := acts[n-1];
      assert run[n] == Apply(run[n-1], a);
      assert a.DisarmWake? && a.e != e ==> !OnlyDisarmed(acts, e, 0, n);
      if a == ArmWake(e) { assert OnlyDisarmed(acts, e, n - 1, n); }
      forall k | 0 <= k < n - 1 ensures OnlyDisarmed(acts, e, k, n) <==> OnlyDisarmed(acts, e, k, n - 1) && !(a.DisarmWake? && a.e != e) {}
    }
  }

  /** Event 0 is armed and disarmed again: it is still armed. */
  lemma DisarmedStaysArmed(s0: State) returns (run: seq<State>, acts: seq<Action>)
    requires Init(s0)
    ensures IsRun(run, acts) && run[0] == s0 && acts == [ArmWake(0), DisarmWake(0)] && run[2].wake == {0}
  {
    var s1 := s0.(wake := s0.wake + {0});
    assert s1.wake * {0} == {0};
    NewRun(s0);
    run, acts := Go([s0], [], s0, ArmWake(0), s1);
    run, acts := Go(run, acts, s1, DisarmWake(0), s1.(wake := {0}));
  }

  // -- What a call writes back ---------------------------------------------------------

  /** The writes to the register that do not take the spinlock. */
  predicate Unlocked(a: Action) { a.BulkCommit? || a.BlockWrite? }

  lemma LoadStep(s: State, a: Action, who: Agent)
    requires LockInv(s) && Enabled(s, a)
    requires who in Apply(s, a).calls && Apply(s, a).calls[who].pc.HaveRead?
    ensures (a == CallStep(who) && Apply(s, a).enable == s.enable == Apply(s, a).calls[who].pc.value)
      || (who in s.calls && s.calls[who] == Apply(s, a).calls[who] && (!Unlocked(a) ==> Apply(s, a).enable == s.enable))
  {}

  /** The value a call has loaded is the register's, as long as only calls write. */
  lemma {:induction false} LoadedSince(run: seq<State>, acts: seq<Action>, i: nat, who: Agent) returns (l: nat)
    requires IsRun(run, acts) && i < |run| && who in run[i].calls && run[i].calls[who].pc.HaveRead?
    ensures l < i && acts[l] == CallStep(who) && run[l].enable == run[i].calls[who].pc.value
    ensures forall j :: l < j <= i ==> who in run[j].calls && run[j].calls[who] == run[i].calls[who]
    ensures (forall k :: l < k < i ==> !Unlocked(acts[k])) ==> run[i].enable == run[l].enable
  {
    RunKeeps(run, acts, i - 1);
    assert run[i] == Apply(run[i-1], acts[i-1]);
    LoadStep(run[i-1], acts[i-1], who);
    if acts[i-1] == CallStep(who) { l := i - 1; } else { l := LoadedSince(run, acts, i - 1, who); }
  }

  /** A call that changes one bit leaves every other bit of the register alone unless an
      unlocked write came after its load; then it puts the loaded bits back. */
  lemma NeighboursKept(run: seq<State>, acts: seq<Action>, i: nat, who: Agent) returns (l: nat)
    requires IsRun(run, acts) && i < |acts| && acts[i] == CallStep(who)
    requires who in run[i].calls && run[i].calls[who].pc.HaveRead?
    ensures l < i && acts[l] == CallStep(who)
    ensures forall f :: f != run[i].calls[who].event ==> (f in run[i+1].enable <==> f in run[l].enable)
    ensures (forall k :: l < k < i ==> !Unlocked(acts[k])) ==>
      forall f :: f != run[i].calls[who].event ==> (f in run[i+1].enable <==> f in run[i].enable)
    ensures run[i].calls[who].event in run[i+1].enable <==> run[i].calls[who].state != Disable
  {
    l := LoadedSince(run, acts, i, who);
    assert run[i+1] == Apply(run[i], acts[i]);
  }

  // -- Masking the whole block -----------------------------------------------------------

  /** A call inside the spinlock has loaded a value it will write back non-empty. */
  ghost predicate Stale(s: State, who: Agent) {
    who in s.calls && s.calls[who].pc.HaveRead? && NewEnable(s.calls[who], s.calls[who].pc.value) != {}
  }

  /** The register is masked and clear, and nobody is about to change that. */
  ghost predicate Quiet(s: State) {
    && s.masked == ALL && OnlyDisablers(s) && s.enable == {}
    && (forall a :: a in s.calls ==> !Stale(s, a))
    && (s.task.BulkWrite? ==> s.task.value == {})
  }

  lemma QuietStep(s: State, a: Action)
    requires Quiet(s) && Enabled(s, a) && !a.BeginUnmask? && (a.BulkWake? ==> s.wake == {})
    ensures Quiet(Apply(s, a))
  {
    var s' := Apply(s, a);
    if a.CallStep? {
      assert forall b :: b in s.calls && b != a.who ==> s'.calls[b] == s.calls[b] && !Enabler(s.calls[b]) && !Stale(s, b);
      assert !Enabler(s.calls[a.who]) && !Stale(s, a.who);
    }
  }

  /** Masked and clear. */
  ghost predicate Shut(s: State) { s.masked == ALL && s.enable == {} }

  /** Nobody is past the check of a masked event, unless the mask call still waits. */
  ghost predicate Drained(s: State) {
    forall e :: e in s.masked && !s.task.BlockDrain? && !(s.task.FirstDrain? && s.task.event == e) ==> NobodyEnables(s, e)
  }

  lemma CallKeepsDrained(s: State, who: Agent)
    requires Drained(s) && CallEnabled(s, who)
    ensures Drained(CallApply(s, who))
  {
    var s' := CallApply(s, who);
    forall e | e in s'.masked && !s'.task.BlockDrain? && !(s'.task.FirstDrain? && s'.task.event == e) ensures NobodyEnables(s', e) {
      assert NobodyEnables(s, e);
      assert forall a :: a in s.calls && a != who ==> s'.calls[a] == s.calls[a] && !WillEnable(s.calls[a], e);
      assert !WillEnable(s.calls[who], e);
    }
  }

  lemma StepKeepsDrained(s: State, a: Action)
    requires Inv(s) && Drained(s) && Enabled(s, a)
    ensures Drained(Apply(s, a))
  {
    if a.CallStep? {
      CallKeepsDrained(s, a.who);
    } else {
      var s' := Apply(s, a);
      assert forall b :: b in s.calls && b.Worker? ==> b.id in InFlight(s);
      forall e | e in s'.masked && !s'.task.BlockDrain? && !(s'.task.FirstDrain? && s'.task.event == e) ensures NobodyEnables(s', e) {
        if a.FirstDrainDone? && e == s.task.event { DrainSeals(s); }
        if !a.BlockDrained? { assert NobodyEnables(s, e); }
        forall b | b in s'.calls ensures !WillEnable(s'.calls[b], e) {
          assert (b in s.calls && s'.calls[b] == s.calls[b]) || s'.calls[b].pc.CheckMasked?;
        }
      }
    }
  }

  lemma {:induction false} RunDrained(run: seq<State>, acts: seq<Action>, i: nat)
    requires IsRun(run, acts) && i < |run|
    ensures Drained(run[i])
  {
    if i > 0 {
      RunDrained(run, acts, i - 1);
      RunKeeps(run, acts, i - 1);
      assert run[i] == Apply(run[i-1], acts[i-1]);
      StepKeepsDrained(run[i-1], acts[i-1]);
    }
  }

  ghost predicate NoUnmaskAtAll(acts: seq<Action>, from: nat, to: nat) {
    forall k :: from <= k < to && k < |acts| ==> !acts[k].BeginUnmask?
  }

  ghost predicate NoWakeAtAll(run: seq<State>, acts: seq<Action>, from: nat, to: nat)
    requires |run| == |acts| + 1
  {
    forall k :: from <= k < to && k < |acts| && acts[k].BulkWake? ==> run[k].wake == {}
  }

  lemma {:induction false} QuietUntil(run: seq<State>, acts: seq<Action>, i: nat, j: nat)
    requires IsRun(run, acts) && i <= j < |run| && Quiet(run[i])
    requires NoUnmaskAtAll(acts, i, j) && NoWakeAtAll(run, acts, i, j)
    ensures Quiet(run[j])
    decreases j - i
  {
    if i < j {
      assert run[i+1] == Apply(run[i], acts[i]);
      QuietStep(run[i], acts[i]);
      QuietUntil(run, acts, i + 1, j);
    }
  }

  lemma StaleMoves(s: State, a: Action, who: Agent)
    requires Inv(s) && Enabled(s, a) && Stale(s, who)
    ensures who in s.calls
    ensures a == CallStep(who) ==> Apply(s, a).enable != {}
    ensures a != CallStep(who) ==> Stale(Apply(s, a), who)
  {}

  /** A stale call that is gone has written. */
  lemma {:induction false} StaleWrites(run: seq<State>, acts: seq<Action>, who: Agent, i: nat, j: nat) returns (k: nat)
    requires IsRun(run, acts) && i <= j < |run| && Stale(run[i], who) && who !in run[j].calls
    ensures i < k <= j && run[k].enable != {}
    decreases j - i
  {
    assert who in run[i].calls;
    hide Apply, Inv, Stale, Enabled;
    RunKeeps(run, acts, i);
    assert Enabled(run[i], acts[i]) && run[i+1] == Apply(run[i], acts[i]);
    StaleMoves(run[i], acts[i], who);
    if acts[i] == CallStep(who) { k := i + 1; } else { k := StaleWrites(run, acts, who, i + 1, j); }
  }

  /** From its mask to its return the block call runs its four steps, and the manager
      does nothing else. */
  lemma {:induction false} BlockCallWrites(run: seq<State>, acts: seq<Action>, i: nat, r: nat) returns (w: nat)
    requires IsRun(run, acts) && i <= r < |acts| && acts[r] == BlockReturned
    requires run[i].task.BlockDrain? || run[i].task.BlockWriting?
    ensures i <= w < r && acts[w] == BlockWrite && NoUnmaskAtAll(acts, i, w)
    decreases r - i
  {
    RunKeeps(run, acts, i);
    assert Enabled(run[i], acts[i]);
    assert i < r && run[i+1] == Apply(run[i], acts[i]);
    if acts[i] == BlockWrite { w := i; } else { w := BlockCallWrites(run, acts, i + 1, r); }
  }

  /** The same after the write. */
  lemma {:induction false} BlockCallWaits(run: seq<State>, acts: seq<Action>, i: nat, r: nat)
    requires IsRun(run, acts) && i <= r < |run| && run[i].task.BlockLastDrain?
    requires forall k :: i <= k < r ==> !acts[k].BlockReturned?
    ensures run[r].task == run[i].task && NoUnmaskAtAll(acts, i, r) && NoWakeAtAll(run, acts, i, r)
    decreases r - i
  {
    if i < r {
      RunKeeps(run, acts, i);
      assert Enabled(run[i], acts[i]) && run[i+1] == Apply(run[i], acts[i]);
      BlockCallWaits(run, acts, i + 1, r);
    }
  }

  /** gpe_block_mask_safe writes the register without the spinlock.  From that write at
      `w` on, past the return of the call at `r` and until an unmask or an armed wake
      action, the register stays masked and clear exactly if at the write no call holds a
      loaded value that it will write back non-empty. */
  lemma WrittenHoldsIff(run: seq<State>, acts: seq<Action>, w: nat, r: nat, n: nat)
    requires IsRun(run, acts) && w < r < n < |run| && acts[w] == BlockWrite && acts[r] == BlockReturned
    requires forall k :: w < k < r ==> !acts[k].BlockReturned?
    requires NoUnmaskAtAll(acts, r, n) && NoWakeAtAll(run, acts, r, n)
    ensures (forall j :: w < j <= n ==> Shut(run[j])) <==> !exists who :: Stale(run[w], who)
  {
    RunKeeps(run, acts, w);
    assert run[w+1] == Apply(run[w], acts[w]);
    BlockCallWaits(run, acts, w + 1, r);
    if who :| Stale(run[w], who) {
      assert Stale(run[w+1], who) && who.id in run[w+1].task.busy;
      var k := StaleWrites(run, acts, who, w + 1, r);
    } else {
      assert Quiet(run[w+1]) by {
        assert forall a :: a in run[w].calls ==> !Stale(run[w], a);
      }
      forall j | w < j <= n ensures Shut(run[j]) { QuietUntil(run, acts, w + 1, j); }
    }
  }

  /** Every run that goes on like this one up to state `i` has the register masked and
      clear until an unmask or an armed wake action. */
  ghost predicate StaysShut(run: seq<State>, acts: seq<Action>, i: nat)
    requires |run| == |acts| + 1 && i < |run|
  {
    forall run', acts', j :: Continues(run, acts, i, run', acts', j) ==> Shut(run'[j])
  }

  ghost predicate Continues(run: seq<State>, acts: seq<Action>, i: nat, run': seq<State>, acts': seq<Action>, j: nat)
    requires |run| == |acts| + 1 && i < |run|
  {
    && IsRun(run', acts') && i <= j < |run'| && run'[..i+1] == run[..i+1] && acts'[..i] == acts[..i]
    && NoUnmaskAtAll(acts', i, j) && NoWakeAtAll(run', acts', i, j)
  }

  /** A call that has loaded a value to write back non-empty can do so next. */
  lemma StaleReopens(run: seq<State>, acts: seq<Action>, i: nat, who: Agent)
    requires IsRun(run, acts) && i < |run| && Stale(run[i], who)
    ensures !StaysShut(run, acts, i)
  {
    RunKeeps(run, acts, i);
    StaleMoves(run[i], CallStep(who), who);
    var run0, acts0 := run[..i+1], acts[..i];
    assert IsRun(run0, acts0);
    var run', acts' := run0 + [Apply(run[i], CallStep(who))], acts0 + [CallStep(who)];
    assert IsRun(run', acts') && run'[..i+1] == run0 && acts'[..i] == acts0;
    assert Continues(run, acts, i, run', acts', i + 1);
  }

  /** Between calls of the manager the register stays masked and clear, whatever follows,
      exactly if it is and no call holds a loaded value to write back non-empty. */
  lemma StaysShutIff(run: seq<State>, acts: seq<Action>, i: nat)
    requires IsRun(run, acts) && i < |run| && run[i].task == NoTask
    ensures StaysShut(run, acts, i) <==> Shut(run[i]) && !exists who :: Stale(run[i], who)
  {
    if who :| Stale(run[i], who) {
      StaleReopens(run, acts, i, who);
    } else if Shut(run[i]) {
      RunDrained(run, acts, i);
      assert Quiet(run[i]) by {
        assert forall a :: a in run[i].calls ==> run[i].calls[a].event in run[i].masked && !Stale(run[i], a);
      }
      forall run', acts', j | Continues(run, acts, i, run', acts', j) ensures Shut(run'[j]) {
        assert run'[i] == run'[..i+1][i] == run[..i+1][i] == run[i];
        QuietUntil(run', acts', i, j);
      }
    } else {
      var run0, acts0 := run[..i+1], acts[..i];
      assert IsRun(run0, acts0) && Continues(run, acts, i, run0, acts0, i);
    }
  }

  /** A block call that finds the current mask empty returns at once and changes nothing:
      the register stays masked and clear from then on exactly if it already was and no
      call holds a loaded value to write back non-empty. */
  lemma BlockMaskSkipsIff(run: seq<State>, acts: seq<Action>, b: nat)
    requires IsRun(run, acts) && b < |acts| && acts[b] == BlockMask && run[b].current == {}
    ensures run[b+1] == run[b] && run[b].task == NoTask
    ensures StaysShut(run, acts, b + 1) <==> Shut(run[b]) && !exists who :: Stale(run[b], who)
  {
    assert Enabled(run[b], acts[b]) && run[b+1] == Apply(run[b], acts[b]);
    StaysShutIff(run, acts, b + 1);
  }

  /** Any other block call, from its mask at `b` to its return at `r`, reaches its plain
      write, and from that write on, until an unmask or an armed wake action, the register
      stays masked and clear exactly if at the write no call holds such a value. */
  lemma BlockMaskHoldsIff(run: seq<State>, acts: seq<Action>, b: nat, r: nat, n: nat) returns (w: nat)
    requires IsRun(run, acts) && b < r < n < |run| && acts[b] == BlockMask && run[b].current != {}
    requires acts[r] == BlockReturned && forall k :: b < k < r ==> !acts[k].BlockReturned?
    requires NoUnmaskAtAll(acts, r, n) && NoWakeAtAll(run, acts, r, n)
    ensures b < w < r && acts[w] == BlockWrite
    ensures (forall j :: w < j <= n ==> Shut(run[j])) <==> !exists who :: Stale(run[w], who)
  {
    assert Enabled(run[b], acts[b]) && run[b+1] == Apply(run[b], acts[b]);
    w := BlockCallWrites(run, acts, b + 1, r);
    WrittenHoldsIff(run, acts, w, r, n);
  }

  /** The block has been masked and drained, and a call that disables event 1 has
      loaded the register. */
  function Loaded(s0: State): State {
    s0.(masked := ALL, task := BlockWriting, lock := HeldBy(Worker(s0.nextId)), nextId := s0.nextId + 1,
        calls := map[Worker(s0.nextId) := Call(1, Disable, HaveRead(s0.enable))])
  }

  lemma RaceBegins(s0: State) returns (run: seq<State>, acts: seq<Action>)
    requires Init(s0) && s0.current != {}
    ensures IsRun(run, acts) && run[0] == s0 && |run| == 7 && |acts| == 6 && run[6] == Loaded(s0) && acts[0] == BlockMask && NoUnmaskAtAll(acts, 0, 6)
  {
    hide IsRun, Init, InFlight;
    NewRun(s0);
    var w, c := Worker(s0.nextId), Call(1, Disable, CheckMasked);
    var s1 := s0.(masked := ALL, task := BlockDrain({}));
    var s2 := s1.(task := BlockWriting);
    var s3 := s2.(calls := map[w := c], nextId := s0.nextId + 1);
    var s4 := s3.(calls := map[w := c.(pc := WantLock)]);
    var s5 := s4.(calls := map[w := c.(pc := Locked)], lock := HeldBy(w));
    NoWorkers(s0);
    run, acts := Go([s0], [], s0, BlockMask, s1);
    NoWorkers(s1);
    run, acts := Go(run, acts, s1, BlockDrained, s2);
    run, acts := Go(run, acts, s2, Spawn(1, Disable), s3);
    run, acts := Go(run, acts, s3, CallStep(w), s4);
    run, acts := Go(run, acts, s4, CallStep(w), s5);
    run, acts := Go(run, acts, s5, CallStep(w), Loaded(s0));
  }

  /** The race as a run.  The block is masked and drained, an interrupt starts disabling
      event 1 and loads the register, the plain write clears it, and the interrupt writes
      the old bit of event 0 back: the call returns with event 0 masked and enabled. */
  lemma BlockMaskLosesRace(s0: State) returns (run: seq<State>, acts: seq<Action>)
    requires Init(s0) && s0.enable == {0, 1} && s0.current != {}
    ensures IsRun(run, acts) && run[0] == s0 && |acts| == 10 && acts[0] == BlockMask && acts[9] == BlockReturned
    ensures NoUnmaskAtAll(acts, 0, 10) && run[10].masked == ALL && run[10].enable == {0}
  {
    hide IsRun, Init, InFlight;
    NewRun(s0);
    run, acts := RaceBegins(s0);
    var id, s6 := s0.nextId, Loaded(s0);
    var s7 := s6.(enable := {}, task := BlockLastDrain({id}));
    var s8 := s7.(calls := map[Worker(id) := Call(1, Disable, Done)], lock := Free, enable := {0});
    var s9 := s8.(calls := map[]);
    OneWorker(s6, id);
    run, acts := Go(run, acts, s6, BlockWrite, s7);
    assert {0, 1} - {1} == {0};
    run, acts := Go(run, acts, s7, CallStep(Worker(id)), s8);
    run, acts := Go(run, acts, s8, Retire(id), s9);
    NoWorkers(s9);
    run, acts := Go(run, acts, s9, BlockReturned, s9.(task := NoTask));
  }

  /** One way to skip an enabled register: a conditional enable that looked at the current
      mask before all events were disabled still sets its bit afterwards. */
  lemma SkipsAfterRace(s0: State) returns (run: seq<State>, acts: seq<Action>)
    requires Init(s0) && s0.current == {0}
    ensures IsRun(run, acts) && run[0] == s0 && |acts| == 9 && acts[8] == BlockMask
    ensures run[9].masked == {} && run[9].enable == {0} && run[9].task == NoTask
  {
    hide IsRun, Init;
    NewRun(s0);
    var w, c := Worker(s0.nextId), Call(0, EnableConditionally, CheckMasked);
    var s1 := s0.(calls := map[w := c], nextId := s0.nextId + 1);
    var s2 := s1.(calls := map[w := c.(pc := CheckCurrent)]);
    var s3 := s2.(calls := map[w := c.(pc := WantLock)]);
    var s4 := s3.(current := {}, task := BulkWrite({}, false));
    var s5 := s4.(enable := {}, task := NoTask);
    var s6 := s5.(calls := map[w := c.(pc := Locked)], lock := HeldBy(w));
    var s7 := s6.(calls := map[w := c.(pc := HaveRead({}))]);
    var s8 := s7.(calls := map[w := c.(pc := Done)], lock := Free, enable := {0});
    run, acts := Go([s0], [], s0, Spawn(0, EnableConditionally), s1);
    run, acts := Go(run, acts, s1, CallStep(w), s2);
    run, acts := Go(run, acts, s2, CallStep(w), s3);
    run, acts := Go(run, acts, s3, BulkDisable, s4);
    run, acts := Go(run, acts, s4, BulkCommit, s5);
    run, acts := Go(run, acts, s5, CallStep(w), s6);
    run, acts := Go(run, acts, s6, CallStep(w), s7);
    run, acts := Go(run, acts, s7, CallStep(w), s8);
    run, acts := Go(run, acts, s8, BlockMask, s8);
  }

  /** A state with one call of the manager, past `pc`. */
  function Managing(s: State, e: Event, st: GpeState, pc: CallPc): State {
    s.(calls := map[Manager := Call(e, st, pc)], task := Calling, lock := if pc.Locked? || pc.HaveRead? then HeldBy(Manager) else Free)
  }

  /** The manager's own call, from its start to its return, for an event that is not masked. */
  lemma ManagerCall(run: seq<State>, acts: seq<Action>, s: State, e: Event, st: GpeState) returns (run': seq<State>, acts': seq<Action>)
    requires IsRun(run, acts) && st in {Enable, Disable} && s.masked == {} && s.calls == map[] && s.task == NoTask && s.lock == Free
    requires run[|run|-1] == Managing(s, e, st, CheckMasked)
    ensures IsRun(run', acts') && run'[0] == run[0] && |run'| == |run| + 5
    ensures run'[|run'|-1] == s.(enable := if st.Disable? then s.enable - {e} else s.enable + {e})
    ensures acts' == acts + [CallStep(Manager), CallStep(Manager), CallStep(Manager), CallStep(Manager), CallReturned]
  {
    hide IsRun;
    var m := CallStep(Manager);
    var v := if st.Disable? then s.enable - {e} else s.enable + {e};
    run', acts' := Go(run, acts, Managing(s, e, st, CheckMasked), m, Managing(s, e, st, WantLock));
    run', acts' := Go(run', acts', Managing(s, e, st, WantLock), m, Managing(s, e, st, Locked));
    run', acts' := Go(run', acts', Managing(s, e, st, Locked), m, Managing(s, e, st, HaveRead(s.enable)));
    run', acts' := Go(run', acts', Managing(s, e, st, HaveRead(s.enable)), m, Managing(s, e, st, Done).(enable := v));
    run', acts' := Go(run', acts', Managing(s, e, st, Done).(enable := v), CallReturned, s.(enable := v));
  }

  /** The wake action enables event 1 alone. */
  function Woken(s0: State): State { s0.(wake := {1}, current := {1}, enable := {1}) }

  lemma WakeCommitted(s0: State) returns (run: seq<State>, acts: seq<Action>)
    requires Init(s0) && s0.wake == {}
    ensures IsRun(run, acts) && run[0] == s0 && |run| == 4 && run[3] == Woken(s0) && acts == [ArmWake(1), BulkWake, BulkCommit]
  {
    hide IsRun, Init;
    NewRun(s0);
    var s1 := s0.(wake := {1});
    var s2 := s1.(current := {1}, task := BulkWrite({1}, true));
    assert s0.wake + {1} == {1} && s0.settled - {1} == s0.settled;
    run, acts := Go([s0], [], s0, ArmWake(1), s1);
    run, acts := Go(run, acts, s1, BulkWake, s2);
    run, acts := Go(run, acts, s2, BulkCommit, Woken(s0));
  }

  lemma UserComes(run: seq<State>, acts: seq<Action>, s: State) returns (run': seq<State>, acts': seq<Action>)
    requires IsRun(run, acts) && run[|run|-1] == s && s.runtime == {} && s.enable == {1}
    requires s.masked == {} && s.calls == map[] && s.task == NoTask && s.lock == Free
    ensures IsRun(run', acts') && run'[0] == run[0] && |run'| == |run| + 6 && |acts'| == |acts| + 6
    ensures run'[|run'|-1] == s.(runtime := {0}, current := {0}, enable := {1, 0})
    ensures acts <= acts' && forall k :: |acts| <= k < |acts'| ==> !acts'[k].Spawn?
  {
    hide IsRun;
    var t := s.(runtime := {0}, current := {0});
    assert {1} + {0} == {1, 0};
    run', acts' := Go(run, acts, s, AddUser(0), Managing(t, 0, Enable, CheckMasked));
    run', acts' := ManagerCall(run', acts', t, 0, Enable);
  }

  lemma UserGoes(run: seq<State>, acts: seq<Action>, s: State) returns (run': seq<State>, acts': seq<Action>)
    requires IsRun(run, acts) && run[|run|-1] == s && s.runtime == {0} && s.enable == {1, 0}
    requires s.masked == {} && s.calls == map[] && s.task == NoTask && s.lock == Free
    ensures IsRun(run', acts') && run'[0] == run[0] && |run'| == |run| + 6 && |acts'| == |acts| + 6
    ensures run'[|run'|-1] == s.(runtime := {}, current := {}, enable := {1})
    ensures acts <= acts' && forall k :: |acts| <= k < |acts'| ==> !acts'[k].Spawn?
  {
    hide IsRun;
    var t := s.(runtime := {}, current := {});
    assert {0} - {0} == {} && {1, 0} - {0} == {1};
    run', acts' := Go(run, acts, s, RemoveUser(0), Managing(t, 0, Disable, CheckMasked));
    run', acts' := ManagerCall(run', acts', t, 0, Disable);
  }

  /** Another way, without any interrupt: the wake action enables an armed event, and
      adding and removing a user of another event resets the current mask to the runtime
      mask, which does not have it. */
  lemma SkipsAfterWake(s0: State) returns (run: seq<State>, acts: seq<Action>)
    requires Init(s0) && s0.runtime == {} && s0.current == {} && s0.wake == {} && s0.enable == {}
    ensures IsRun(run, acts) && run[0] == s0 && |acts| == 16 && acts[15] == BlockMask && forall k :: 0 <= k < 16 ==> !acts[k].Spawn?
    ensures run[16].masked == {} && run[16].enable == {1} && run[16].current == {} && run[16].task == NoTask
  {
    hide IsRun, Init;
    NewRun(s0);
    var s3 := Woken(s0);
    var s5 := s3.(runtime := {0}, current := {0}, enable := {1, 0});
    var s7 := s5.(runtime := {}, current := {}, enable := {1});
    run, acts := WakeCommitted(s0);
    run, acts := UserComes(run, acts, s3);
    run, acts := UserGoes(run, acts, s5);
    run, acts := Go(run, acts, s7, BlockMask, s7);
  }

  /** A block that was masked and then woken: event 1 is masked and enabled. */
  function MaskedAndWoken(s0: State): State { s0.(masked := ALL, current := {1}, enable := {1}) }

  lemma MaskThenWake(s0: State) returns (run: seq<State>, acts: seq<Action>)
    requires Init(s0) && s0.current != {} && s0.wake == {1}
    ensures IsRun(run, acts) && run[0] == s0 && |run| == 7 && |acts| == 6 && run[6] == MaskedAndWoken(s0)
  {
    hide IsRun, Init, InFlight;
    NewRun(s0);
    NoWorkers(s0);
    var s1 := s0.(masked := ALL, task := BlockDrain({}));
    var s2 := s1.(task := BlockWriting);
    var s3 := s2.(enable := {}, task := BlockLastDrain({}));
    var s4 := s3.(task := NoTask);
    var s5 := s4.(current := {1}, task := BulkWrite({1}, true));
    NoWorkers(s1);
    NoWorkers(s2);
    NoWorkers(s3);
    run, acts := Go([s0], [], s0, BlockMask, s1);
    run, acts := Go(run, acts, s1, BlockDrained, s2);
    run, acts := Go(run, acts, s2, BlockWrite, s3);
    run, acts := Go(run, acts, s3, BlockReturned, s4);
    run, acts := Go(run, acts, s4, BulkWake, s5);
    assert s5.settled - {1} == {};
    run, acts := Go(run, acts, s5, BulkCommit, MaskedAndWoken(s0));
  }

  /** Then a call that disables event 0 loads the register, and all events are disabled. */
  lemma ThenDisable(run: seq<State>, acts: seq<Action>, s0: State) returns (run': seq<State>, acts': seq<Action>, s: State, w: Agent)
    requires IsRun(run, acts) && Init(s0) && run[|run|-1] == MaskedAndWoken(s0)
    ensures IsRun(run', acts') && run'[0] == run[0] && |run'| == |run| + 6 && |acts'| == |acts| + 6 && run'[|run'|-1] == s
    ensures Shut(s) && ManagerIdle(s) && s.current == {} && CallEnabled(s, w) && s.calls[w] == Call(0, Disable, HaveRead({1}))
  {
    NewRun(s0);
    hide IsRun, Init;
    w := Worker(s0.nextId);
    var c, a := Call(0, Disable, CheckMasked), MaskedAndWoken(s0);
    var s7 := a.(calls := map[w := c], nextId := s0.nextId + 1);
    var s8 := s7.(calls := map[w := c.(pc := WantLock)]);
    var s9 := s8.(calls := map[w := c.(pc := Locked)], lock := HeldBy(w));
    var s10 := s9.(calls := map[w := c.(pc := HaveRead({1}))]);
    var s11 := s10.(current := {}, task := BulkWrite({}, false));
    s := s11.(enable := {}, task := NoTask);
    run', acts' := Go(run, acts, a, Spawn(0, Disable), s7);
    run', acts' := Go(run', acts', s7, CallStep(w), s8);
    run', acts' := Go(run', acts', s8, CallStep(w), s9);
    run', acts' := Go(run', acts', s9, CallStep(w), s10);
    run', acts' := Go(run', acts', s10, BulkDisable, s11);
    run', acts' := Go(run', acts', s11, BulkCommit, s);
  }

  /** A skipped register that is masked and clear when the block call returns can still be
      enabled afterwards: a call that loaded it before all events were disabled writes the
      old bit back. */
  lemma SkippedReopens(s0: State) returns (run: seq<State>, acts: seq<Action>)
    requires Init(s0) && s0.current != {} && s0.wake == {1}
    ensures IsRun(run, acts) && run[0] == s0 && |acts| == 14 && acts[12] == BlockMask
    ensures Shut(run[12]) && run[13] == run[12] && run[14].masked == ALL && run[14].enable == {1}
  {
    var run0, acts0 := MaskThenWake(s0);
    var run1, acts1, s, w := ThenDisable(run0, acts0, s0);
    assert {1} - {0} == {1};
    run, acts := run1 + [s, CallApply(s, w)], acts1 + [BlockMask, CallStep(w)];
  }
}
