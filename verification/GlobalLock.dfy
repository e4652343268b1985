/**
 The lock word, taken apart into the fields the protocol reasons about.
 */
module LockWord {

  /** Bit 0 is pending, bit 1 is owned, the rest is reserved. */
  datatype Word = Word(reserved: nat, owned: bool, pending: bool)

  /** What an acquire attempt swaps in. */
  function Acquired(w: Word): Word { w.(owned := true, pending := w.owned) }

  /** What a release swaps in. */
  function Released(w: Word): Word { w.(owned := false, pending := false) }
}

/**
 The bit patterns the two sides swap in, and that they mean what the protocol
 above says.
 */
module LockWordBits {
  import opened LockWord

  function Reserved(w: bv32): nat { (w & 0xFFFF_FFFC) as nat }

  function Decode(w: bv32): Word { Word(Reserved(w), w & 2 != 0, w & 1 != 0) }

  function AcquireBits(value: bv32): bv32 {
    var cleared := value & 0xFFFF_FFFC;
    if value & 2 != 0 then cleared | 2 | 1 else cleared | 2
  }

  function ReleaseBits(value: bv32): bv32 { value & 0xFFFF_FFFC }

  lemma AcquireFields(v: bv32)
    ensures Decode(AcquireBits(v)) == Acquired(Decode(v))
  {
    var c := v & 0xFFFF_FFFC;
    assert (c | 2) & 2 != 0 && (c | 2) & 1 == 0;
    assert (c | 2 | 1) & 2 != 0 && (c | 2 | 1) & 1 != 0;
    assert (c | 2) & 0xFFFF_FFFC == c;
    assert (c | 2 | 1) & 0xFFFF_FFFC == c;
  }

  lemma ReleaseFields(v: bv32)
    ensures Decode(ReleaseBits(v)) == Released(Decode(v))
  {}

  lemma SameValue(a: bv32, b: bv32)
    requires a as nat == b as nat
    ensures a == b
  {
    assert (a as nat) as bv32 == a;
    assert (b as nat) as bv32 == b;
  }

  lemma SplitWord(v: bv32, w: bv32)
    requires v & 0xFFFF_FFFC == w & 0xFFFF_FFFC
    requires (v & 2 != 0) == (w & 2 != 0) && (v & 1 != 0) == (w & 1 != 0)
    ensures v == w
  {
    assert v & 3 == w & 3;
    assert v == (v & 0xFFFF_FFFC) | (v & 3);
    assert w == (w & 0xFFFF_FFFC) | (w & 3);
  }

  /** Two words with the same fields are the same word, so a compare-and-swap
      on the fields is a compare-and-swap on the word. */
  lemma FieldsDetermineWord(v: bv32, w: bv32)
    requires Decode(v) == Decode(w)
    ensures v == w
  {
    assert v & 0xFFFF_FFFC == w & 0xFFFF_FFFC by { SameValue(v & 0xFFFF_FFFC, w & 0xFFFF_FFFC); }
    SplitWord(v, w);
  }
}

/**
 The ACPI Global Lock handshake between the operating system and platform
 firmware (section 5.2.10.1 of ACPI 6.5), as a state machine over the atomic
 steps of four kinds of agents: any number of OS threads serialised by a native
 mutex, the interrupt handler that receives firmware's release notification,
 and a firmware agent that follows the same lock-word protocol.

 Every action below is one atomic access to shared memory.  A compare-and-swap
 that fails reloads the lock word and is retried, as the source's loops do.
 */
module GlobalLock {
  import opened LockWord

  type Tid = nat

  const MAX_SPINS: nat := 0xFFFF

  // -- Agents -----------------------------------------------------------------

  /** Where an OS thread stands in acquire/release of the firmware lock. */
  datatype OsPc =
    | Idle
    | AcqSpin                  // native mutex held, about to take the spinlock
    | AcqRead                  // spinlock held, about to load the word
    | AcqCas(value: Word)      // about to compare-and-swap
    | AcqFailed                // left the pending bit in the word
    | Armed                    // raised the pending flag, about to drop the spinlock
    | Waiting                  // blocked on the event
    | AcqDone(success: bool)   // about to clear the pending flag and unlock
    | Owner
    | RelRead
    | RelCas(value: Word)
    | RelNotify(pending: bool) // about to tell firmware, if the bit was set
    | Leaving                  // about to release the native mutex

  datatype FwPc =
    | FwIdle
    | FwRead
    | FwCas(value: Word)
    | FwWaiting
    | FwOwner
    | FwRelRead
    | FwRelCas(value: Word)
    | FwNotify(pending: bool)

  datatype IrqPc = IrqIdle | IrqEnter | IrqLocked | IrqSignaled

  datatype SpinHolder = Nobody | HeldByOs(t: Tid) | HeldByIrq

  datatype NativeMutex = Free | HeldBy(t: Tid)

  datatype State = State(
    word: Word,
    mutex: NativeMutex,
    os: map<Tid, OsPc>,
    spins: nat,
    spin: SpinHolder,
    pendingFlag: bool,
    event: nat,
    status: bool,      // GBL_STS: firmware's release notification is latched
    irq: IrqPc,
    fw: FwPc,
    gblRls: bool)      // the OS's release notification to firmware is latched

  datatype AcqAction =
    | Enter | SpinLock | Load | Swap | Reload | GiveUp | Arm | Sleep | Wake | Timeout | Finish

  datatype RelAction = StartRelease | RelLoad | RelSwap | RelReload | Notify | Leave

  datatype IrqAction = Dispatch | Lock | Spurious | Signal | Unlock

  datatype FwAction =
    | FwStart | FwLoad | FwSwap | FwReload | FwWake | FwRetry
    | FwStartRelease | FwRelLoad | FwRelSwap | FwRelReload | FwRaise

  datatype Action = Acq(t: Tid, acq: AcqAction) | Rel(t: Tid, rel: RelAction) | Irq(i: IrqAction) | Fw(f: FwAction)

  // -- Steps ------------------------------------------------------------------

  ghost predicate At(s: State, t: Tid, pc: OsPc) { t in s.os && s.os[t] == pc }

  function Move(s: State, t: Tid, pc: OsPc): State { s.(os := s.os[t := pc]) }

  predicate AcqEnabled(s: State, t: Tid, a: AcqAction) {
    t in s.os &&
    var pc := s.os[t];
    match a
    case Enter => pc.Idle? && s.mutex == Free
    case SpinLock => pc.AcqSpin? && s.spin == Nobody
    case Load => pc.AcqRead?
    case Swap => pc.AcqCas? && pc.value == s.word
    case Reload => pc.AcqCas?
    case GiveUp => pc.AcqFailed? && s.spins == MAX_SPINS
    case Arm => pc.AcqFailed? && s.spins != MAX_SPINS
    case Sleep => pc.Armed?
    case Wake => pc.Waiting? && s.event > 0
    case Timeout => pc.Waiting?
    case Finish => pc.AcqDone?
  }

  function AcqApply(s: State, t: Tid, a: AcqAction): (r: State)
    requires AcqEnabled(s, t, a)
    ensures r.word.reserved == s.word.reserved
  {
    match a
    case Enter => Move(s, t, AcqSpin).(mutex := HeldBy(t), spins := 0)
    case SpinLock => Move(s, t, AcqRead).(spin := HeldByOs(t), spins := s.spins + 1)
    case Load => Move(s, t, AcqCas(s.word))
    case Swap => Move(s, t, if s.word.owned then AcqFailed else AcqDone(true)).(word := Acquired(s.word))
    case Reload => Move(s, t, AcqCas(s.word))
    case GiveUp => Move(s, t, AcqDone(false))
    case Arm => Move(s, t, Armed).(pendingFlag := true)
    case Sleep => Move(s, t, Waiting).(spin := Nobody)
    case Wake => Move(s, t, AcqSpin).(event := s.event - 1)
    case Timeout => Move(s, t, AcqSpin)
    case Finish =>
      Move(s, t, if s.os[t].success then Owner else Leaving).(pendingFlag := false, spin := Nobody)
  }

  predicate RelEnabled(s: State, t: Tid, a: RelAction) {
    t in s.os &&
    var pc := s.os[t];
    match a
    case StartRelease => pc.Owner?
    case RelLoad => pc.RelRead?
    case RelSwap => pc.RelCas? && pc.value == s.word
    case RelReload => pc.RelCas?
    case Notify => pc.RelNotify?
    case Leave => pc.Leaving?
  }

  function RelApply(s: State, t: Tid, a: RelAction): (r: State)
    requires RelEnabled(s, t, a)
    ensures r.word.reserved == s.word.reserved
  {
    match a
    case StartRelease => Move(s, t, RelRead)
    case RelLoad => Move(s, t, RelCas(s.word))
    case RelSwap => Move(s, t, RelNotify(s.os[t].value.pending)).(word := Released(s.word))
    case RelReload => Move(s, t, RelCas(s.word))
    case Notify => Move(s, t, Leaving).(gblRls := s.gblRls || s.os[t].pending)
    case Leave => Move(s, t, Idle).(mutex := Free)
  }

  predicate IrqEnabled(s: State, a: IrqAction) {
    match a
    case Dispatch => s.status && s.irq == IrqIdle
    case Lock => s.irq == IrqEnter && s.spin == Nobody
    case Spurious => s.irq == IrqLocked && !s.pendingFlag
    case Signal => s.irq == IrqLocked && s.pendingFlag
    case Unlock => s.irq == IrqSignaled
  }

  /** Dispatch clears the latched status before it calls the handler. */
  function IrqApply(s: State, a: IrqAction): (r: State)
    ensures r.word == s.word
  {
    match a
    case Dispatch => s.(status := false, irq := IrqEnter)
    case Lock => s.(irq := IrqLocked, spin := HeldByIrq)
    case Spurious => s.(irq := IrqIdle, spin := Nobody)
    case Signal => s.(irq := IrqSignaled, event := s.event + 1)
    case Unlock => s.(irq := IrqIdle, pendingFlag := false, spin := Nobody)
  }

  predicate FwEnabled(s: State, a: FwAction) {
    match a
    case FwStart => s.fw.FwIdle?
    case FwLoad => s.fw.FwRead?
    case FwSwap => s.fw.FwCas? && s.fw.value == s.word
    case FwReload => s.fw.FwCas?
    case FwWake => s.fw.FwWaiting? && s.gblRls
    case FwRetry => s.fw.FwWaiting?
    case FwStartRelease => s.fw.FwOwner?
    case FwRelLoad => s.fw.FwRelRead?
    case FwRelSwap => s.fw.FwRelCas? && s.fw.value == s.word
    case FwRelReload => s.fw.FwRelCas?
    case FwRaise => s.fw.FwNotify?
  }

  function FwApply(s: State, a: FwAction): (r: State)
    requires FwEnabled(s, a)
    ensures r.word.reserved == s.word.reserved
  {
    match a
    case FwStart => s.(fw := FwRead)
    case FwLoad => s.(fw := FwCas(s.word))
    case FwSwap => s.(word := Acquired(s.word), fw := if s.word.owned then FwWaiting else FwOwner)
    case FwReload => s.(fw := FwCas(s.word))
    case FwWake => s.(gblRls := false, fw := FwRead)
    case FwRetry => s.(fw := FwRead)
    case FwStartRelease => s.(fw := FwRelRead)
    case FwRelLoad => s.(fw := FwRelCas(s.word))
    case FwRelSwap => s.(word := Released(s.word), fw := FwNotify(s.fw.value.pending))
    case FwRelReload => s.(fw := FwRelCas(s.word))
    case FwRaise => s.(fw := FwIdle, status := s.status || s.fw.pending)
  }

  predicate Enabled(s: State, a: Action) {
    match a
    case Acq(t, acq) => AcqEnabled(s, t, acq)
    case Rel(t, rel) => RelEnabled(s, t, rel)
    case Irq(i) => IrqEnabled(s, i)
    case Fw(f) => FwEnabled(s, f)
  }

  function Apply(s: State, a: Action): (r: State)
    requires Enabled(s, a)
    ensures r.word.reserved == s.word.reserved
  {
    match a
    case Acq(t, acq) => AcqApply(s, t, acq)
    case Rel(t, rel) => RelApply(s, t, rel)
    case Irq(i) => IrqApply(s, i)
    case Fw(f) => FwApply(s, f)
  }

  ghost predicate Init(s: State) {
    && !s.word.owned && !s.word.pending
    && s.mutex == Free && (forall t :: t in s.os ==> s.os[t] == Idle)
    && s.spin == Nobody && !s.pendingFlag && s.irq == IrqIdle && s.fw == FwIdle
  }

  /** A run: `acts` is any interleaving of the agents' actions. */
  ghost predicate IsRun(run: seq<State>, acts: seq<Action>) {
    && |run| == |acts| + 1
    && Init(run[0])
    && forall i :: 0 <= i < |acts| ==> Enabled(run[i], acts[i]) && run[i+1] == Apply(run[i], acts[i])
  }

  // -- Invariant --------------------------------------------------------------

  predicate OsHoldsSpin(pc: OsPc) {
    pc.AcqRead? || pc.AcqCas? || pc.AcqFailed? || pc.Armed? || pc.AcqDone?
  }

  predicate OsOwns(pc: OsPc) { pc == AcqDone(true) || pc.Owner? || pc.RelRead? || pc.RelCas? }

  predicate FwOwns(pc: FwPc) { pc.FwOwner? || pc.FwRelRead? || pc.FwRelCas? }

  ghost predicate SomeThreadOwns(s: State) { exists t :: t in s.os && OsOwns(s.os[t]) }

  /** The program counter of the thread that holds the native mutex. */
  ghost function HolderPc(s: State): OsPc {
    if s.mutex.HeldBy? && s.mutex.t in s.os then s.os[s.mutex.t] else Idle
  }

  /** Only the holder of the native mutex is away from Idle. */
  ghost predicate Serialised(s: State) {
    forall t :: t in s.os && s.os[t] != Idle ==> s.mutex == HeldBy(t)
  }

  ghost predicate SpinlockHeld(s: State, pc: OsPc)
    requires OsHoldsSpin(pc) ==> s.mutex.HeldBy?
  {
    && (OsHoldsSpin(pc) ==> s.spin == HeldByOs(s.mutex.t))
    && (s.irq == IrqLocked || s.irq == IrqSignaled ==> s.spin == HeldByIrq)
  }

  ghost predicate WordMatchesOwner(s: State, pc: OsPc) {
    && (s.word.pending ==> s.word.owned)
    && (s.word.owned <==> OsOwns(pc) || FwOwns(s.fw))
    && !(OsOwns(pc) && FwOwns(s.fw))
  }

  /** Firmware still owes, or has already sent, a release notification. */
  ghost predicate ReleaseOutstanding(s: State) {
    || (FwOwns(s.fw) && s.word.pending)
    || s.fw == FwNotify(true)
    || s.status
    || s.irq == IrqEnter
    || s.irq == IrqLocked
  }

  ghost predicate WakeupComing(s: State) {
    s.event > 0 || (s.pendingFlag && ReleaseOutstanding(s))
  }

  ghost predicate OsWaiterCovered(s: State, pc: OsPc) {
    && (pc == AcqFailed ==> ReleaseOutstanding(s))
    && (pc == Armed ==> s.pendingFlag && ReleaseOutstanding(s))
    && (pc == Waiting ==> WakeupComing(s))
    && (pc == Waiting && s.irq == IrqSignaled ==> s.event > 0)
  }

  /** The OS still owes, or has already sent, a release notification. */
  ghost predicate FwWaiterCovered(s: State, pc: OsPc) {
    s.fw == FwWaiting ==> (OsOwns(pc) && s.word.pending) || pc == RelNotify(true) || s.gblRls
  }

  ghost predicate Core(s: State, pc: OsPc)
    requires OsHoldsSpin(pc) ==> s.mutex.HeldBy?
  {
    SpinlockHeld(s, pc) && WordMatchesOwner(s, pc) && OsWaiterCovered(s, pc) && FwWaiterCovered(s, pc)
  }

  ghost predicate Inv(s: State) { Serialised(s) && Core(s, HolderPc(s)) }

  // -- Preservation -----------------------------------------------------------

  lemma InitEstablishes(s: State)
    requires Init(s)
    ensures Inv(s)
  {}

  lemma AcquireStepKeeps(s: State, t: Tid, a: AcqAction)
    requires Inv(s) && AcqEnabled(s, t, a)
    ensures Inv(AcqApply(s, t, a))
  {
    assert HolderPc(AcqApply(s, t, a)) == AcqApply(s, t, a).os[t];
  }

  lemma ReleaseStepKeeps(s: State, t: Tid, a: RelAction)
    requires Inv(s) && RelEnabled(s, t, a)
    ensures Inv(RelApply(s, t, a))
  {
    assert HolderPc(s) == s.os[t];
  }

  lemma IrqStepKeeps(s: State, a: IrqAction)
    requires Inv(s) && IrqEnabled(s, a)
    ensures Inv(IrqApply(s, a))
  {
    assert HolderPc(s) == HolderPc(IrqApply(s, a));
  }

  lemma FwStepKeeps(s: State, a: FwAction)
    requires Inv(s) && FwEnabled(s, a)
    ensures Inv(FwApply(s, a))
  {
    assert HolderPc(s) == HolderPc(FwApply(s, a));
  }

  lemma StepKeeps(s: State, a: Action)
    requires Inv(s) && Enabled(s, a)
    ensures Inv(Apply(s, a))
  {
    match a
    case Acq(t, acq) => AcquireStepKeeps(s, t, acq);
    case Rel(t, rel) => ReleaseStepKeeps(s, t, rel);
    case Irq(i) => IrqStepKeeps(s, i);
    case Fw(f) => FwStepKeeps(s, f);
  }

  lemma {:induction false} RunKeeps(run: seq<State>, acts: seq<Action>, i: nat)
    requires IsRun(run, acts) && i < |run|
    ensures Inv(run[i])
  {
    if i == 0 {
      InitEstablishes(run[0]);
    } else {
      RunKeeps(run, acts, i - 1);
      assert run[i] == Apply(run[i-1], acts[i-1]);
      StepKeeps(run[i-1], acts[i-1]);
    }
  }

  // -- Main results -----------------------------------------------------------

  /** In every reachable state at most one party is inside the lock, and the
      owned bit says whether somebody is. */
  lemma MutualExclusion(run: seq<State>, acts: seq<Action>, i: nat)
    requires IsRun(run, acts) && i < |run|
    ensures forall t, u :: t in run[i].os && u in run[i].os && OsOwns(run[i].os[t]) && OsOwns(run[i].os[u]) ==> t == u
    ensures forall t :: t in run[i].os && OsOwns(run[i].os[t]) ==> !FwOwns(run[i].fw)
    ensures run[i].word.owned <==> SomeThreadOwns(run[i]) || FwOwns(run[i].fw)
  {
    RunKeeps(run, acts, i);
    if run[i].word.owned && !FwOwns(run[i].fw) {
      assert OsOwns(run[i].os[run[i].mutex.t]);
    }
  }

  /** Firmware tried to take the lock between two points of the run. */
  ghost predicate Requested(acts: seq<Action>, from: nat, to: nat) {
    exists m :: from < m < to < |acts| + 1 && acts[m] == Fw(FwSwap)
  }

  /** Thread `t` took the free lock with its swap at `from` and has owned it ever since,
      and the pending bit tells whether firmware has tried to take the lock meanwhile. */
  ghost predicate HeldSince(run: seq<State>, acts: seq<Action>, t: Tid, from: nat, i: nat) {
    && |run| == |acts| + 1 && from < i < |run|
    && acts[from] == Acq(t, Swap) && !run[from].word.owned
    && (forall j :: from < j <= i ==> t in run[j].os && OsOwns(run[j].os[t]))
    && (run[i].word.pending <==> Requested(acts, from, i))
  }

  /** What one step of anybody does to the ownership of `t` and to the pending bit. */
  ghost predicate OwnStepOk(s: State, a: Action, t: Tid, s': State) {
    && t in s.os && t in s'.os
    && (OsOwns(s'.os[t]) && !OsOwns(s.os[t]) ==> a == Acq(t, Swap) && !s.word.owned && !s'.word.pending)
    && (OsOwns(s'.os[t]) && OsOwns(s.os[t]) ==> (s'.word.pending <==> s.word.pending || a == Fw(FwSwap)))
  }

  lemma OwnAcq(s: State, t: Tid, a: AcqAction)
    requires AcqEnabled(s, t, a)
    ensures OwnStepOk(s, Acq(t, a), t, AcqApply(s, t, a))
  {}

  lemma OwnRel(s: State, t: Tid, a: RelAction)
    requires RelEnabled(s, t, a)
    ensures OwnStepOk(s, Rel(t, a), t, RelApply(s, t, a))
  {}

  lemma OwnFw(s: State, t: Tid, a: FwAction)
    requires t in s.os && (OsOwns(s.os[t]) ==> s.word.owned && !FwOwns(s.fw)) && FwEnabled(s, a)
    ensures OwnStepOk(s, Fw(a), t, FwApply(s, a))
  {}

  /** Steps of others do not move `t`. */
  lemma Elsewhere(s: State, a: Action, t: Tid)
    requires t in s.os && Enabled(s, a) && !By(a, t)
    ensures t in Apply(s, a).os && Apply(s, a).os[t] == s.os[t]
  {
    match a
    case Acq(u, acq) => AcqMoves(s, u, acq);
    case Rel(u, rel) => RelMoves(s, u, rel);
    case Irq(_) =>
    case Fw(_) =>
  }

  lemma AcqMoves(s: State, t: Tid, a: AcqAction)
    requires AcqEnabled(s, t, a)
    ensures AcqApply(s, t, a).os == s.os[t := AcqApply(s, t, a).os[t]]
  {}

  lemma RelMoves(s: State, t: Tid, a: RelAction)
    requires RelEnabled(s, t, a)
    ensures RelApply(s, t, a).os == s.os[t := RelApply(s, t, a).os[t]]
  {}

  lemma OwnStep(s: State, a: Action, t: Tid)
    requires Inv(s) && t in s.os && Enabled(s, a)
    ensures OwnStepOk(s, a, t, Apply(s, a))
  {
    if OsOwns(s.os[t]) { assert HolderPc(s) == s.os[t]; }
    if !By(a, t) { Elsewhere(s, a, t); }
    hide OsWaiterCovered, FwWaiterCovered, SpinlockHeld;
    match a
    case Acq(u, acq) => if u == t { OwnAcq(s, t, acq); } else { hide AcqApply; assert !OsOwns(s.os[t]); }
    case Rel(u, rel) => if u == t { OwnRel(s, t, rel); } else { hide RelApply; assert !OsOwns(s.os[t]); }
    case Irq(_) =>
    case Fw(f) => OwnFw(s, t, f);
  }

  lemma {:induction false} OwnedSince(run: seq<State>, acts: seq<Action>, t: Tid, i: nat) returns (from: nat)
    requires IsRun(run, acts) && i < |run| && t in run[i].os && OsOwns(run[i].os[t])
    ensures HeldSince(run, acts, t, from, i)
  {
    hide AcqApply, RelApply, FwApply, IrqApply, Core;
    RunKeeps(run, acts, i - 1);
    ThreadsFixed(run, acts, t, i);
    var s, a := run[i-1], acts[i-1];
    assert run[i] == Apply(s, a);
    OwnStep(s, a, t);
    if OsOwns(s.os[t]) {
      from := OwnedSince(run, acts, t, i - 1);
      assert Requested(acts, from, i) <==> Requested(acts, from, i - 1) || a == Fw(FwSwap) by {
        if a == Fw(FwSwap) { assert acts[i-1] == Fw(FwSwap); }
      }
    } else {
      from := i - 1;
    }
  }

  predicate By(a: Action, t: Tid) { (a.Acq? || a.Rel?) && a.t == t }

  lemma NotifyAcq(s: State, t: Tid, a: AcqAction)
    requires AcqEnabled(s, t, a)
    ensures !AcqApply(s, t, a).os[t].RelNotify?
  {}

  lemma NotifyRel(s: State, t: Tid, a: RelAction)
    requires RelEnabled(s, t, a) && RelApply(s, t, a).os[t].RelNotify?
    ensures a == RelSwap && OsOwns(s.os[t]) && RelApply(s, t, a).os[t] == RelNotify(s.word.pending)
    ensures RelApply(s, t, a).word == Word(s.word.reserved, false, false)
  {}

  /** However often either swap is retried: a release that is about to report `p` cleared
      both bits of the word in one swap, has done nothing since, and reports exactly
      whether firmware tried to take the lock while the thread owned it. */
  lemma {:induction false} ReleaseReportsRequests(run: seq<State>, acts: seq<Action>, t: Tid, i: nat, p: bool)
    returns (from: nat, k: nat)
    requires IsRun(run, acts) && i < |run| && At(run[i], t, RelNotify(p))
    ensures k < i && acts[k] == Rel(t, RelSwap) && HeldSince(run, acts, t, from, k)
    ensures run[k+1].word == Word(run[0].word.reserved, false, false)
    ensures forall j :: k < j < i ==> !By(acts[j], t)
    ensures p <==> Requested(acts, from, k)
  {
    hide AcqApply, RelApply, FwApply, IrqApply;
    ThreadsFixed(run, acts, t, i);
    assert run[i] == Apply(run[i-1], acts[i-1]);
    var s, a := run[i-1], acts[i-1];
    if By(a, t) {
      if a.Acq? { NotifyAcq(s, t, a.acq); } else { NotifyRel(s, t, a.rel); }
      k := i - 1;
      ReservedBitsKept(run, acts, k);
      from := OwnedSince(run, acts, t, k);
    } else {
      Elsewhere(s, a, t);
      from, k := ReleaseReportsRequests(run, acts, t, i - 1, p);
    }
  }

  lemma {:induction false} ThreadsFixed(run: seq<State>, acts: seq<Action>, t: Tid, i: nat)
    requires IsRun(run, acts) && i < |run|
    ensures t in run[i].os <==> t in run[0].os
    ensures i > 0 ==> (t in run[i].os <==> t in run[i-1].os)
    ensures t in run[0].os ==> run[0].os[t] == Idle
  {
    hide AcqApply, RelApply, FwApply, IrqApply;
    if i > 0 {
      ThreadsFixed(run, acts, t, i - 1);
      assert run[i] == Apply(run[i-1], acts[i-1]);
      SameThreads(run[i-1], acts[i-1]);
    }
  }

  lemma SameThreads(s: State, a: Action)
    requires Enabled(s, a)
    ensures forall t :: t in Apply(s, a).os <==> t in s.os
  {
    match a
    case Acq(u, acq) => AcqMoves(s, u, acq);
    case Rel(u, rel) => RelMoves(s, u, rel);
    case Irq(_) =>
    case Fw(_) =>
  }

  /** While an OS thread waits, its event is signalled, or the pending flag is
      up and firmware still owes, has sent, or the handler is processing a
      release notification. */
  lemma NoLostWakeup(run: seq<State>, acts: seq<Action>, i: nat, t: Tid)
    requires IsRun(run, acts) && i < |run| && At(run[i], t, Waiting)
    ensures WakeupComing(run[i])
  {
    RunKeeps(run, acts, i);
  }

  /** Once firmware is out of the lock and its notifications have been handled,
      no waiter is left asleep. */
  lemma QuiescentMeansSignalled(run: seq<State>, acts: seq<Action>, i: nat, t: Tid)
    requires IsRun(run, acts) && i < |run| && At(run[i], t, Waiting)
    requires run[i].fw == FwIdle && !run[i].status && run[i].irq == IrqIdle
    ensures run[i].event > 0
  {
    RunKeeps(run, acts, i);
  }

  /** The mirror image: firmware that found the lock taken is always owed, or
      has been sent, the OS's release notification. */
  lemma FirmwareNoLostWakeup(run: seq<State>, acts: seq<Action>, i: nat)
    requires IsRun(run, acts) && i < |run| && run[i].fw == FwWaiting
    ensures
      || (SomeThreadOwns(run[i]) && run[i].word.pending)
      || (exists t :: At(run[i], t, RelNotify(true)))
      || run[i].gblRls
  {
    RunKeeps(run, acts, i);
    if !run[i].gblRls {
      var t := run[i].mutex.t;
      assert At(run[i], t, HolderPc(run[i]));
    }
  }

  /** The 30 reserved bits of the lock word never change. */
  lemma {:induction false} ReservedBitsKept(run: seq<State>, acts: seq<Action>, i: nat)
    requires IsRun(run, acts) && i < |run|
    ensures run[i].word.reserved == run[0].word.reserved
  {
    if i > 0 {
      ReservedBitsKept(run, acts, i - 1);
      assert run[i] == Apply(run[i-1], acts[i-1]);
    }
  }
}

/**
 The sequence number that the public acquire call hands out and the public release
 call asks for.
 */
module GlobalLockTicket {

  const LAST: nat := 0xFFFF_FFFF

  datatype Tickets = Tickets(next: nat, acquired: bool)

  function Acquire(t: Tickets): (Tickets, nat) {
    var ticket := if t.next == LAST then 0 else t.next;
    (Tickets(ticket + 1, true), ticket)
  }

  function Release(t: Tickets, ticket: nat): (Tickets, bool) {
    if !t.acquired || ticket != t.next then (t, false) else (t.(acquired := false), true)
  }

  /** After an acquire, a release is accepted exactly for the number after the one that
      the acquire returned: its own number is never accepted. */
  lemma AcceptedIff(t: Tickets, ticket: nat)
    ensures Release(Acquire(t).0, ticket).1 <==> ticket == Acquire(t).1 + 1
    ensures !Release(Acquire(t).0, Acquire(t).1).1
  {}
}
