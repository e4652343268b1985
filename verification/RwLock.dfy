/**
 The readers-writer lock that guards the ACPI namespace: a read mutex around a
 reader count, and a write mutex taken by a writer or by the first reader.  Any
 number of threads interleave; each action is one mutex operation or one access
 to the count.
 */
module RwLock {

  type Tid = nat

  datatype Pc =
    | Outside
    | RdWantGate                 // uacpi_rw_lock_read, before the read mutex
    | RdCount                    // read mutex held, about to increment
    | RdWantWrite                // first reader, about to take the write mutex
    | RdLeaveGate(granted: bool) // about to release the read mutex
    | Reading
    | UnWantGate                 // uacpi_rw_unlock_read, before the read mutex
    | UnCount                    // read mutex held, about to decrement
    | UnDropWrite                // last reader, about to release the write mutex
    | UnLeaveGate
    | WrWant
    | Writing

  datatype Holder = Free | HeldBy(t: Tid) | HeldByReaders

  datatype State = State(pc: map<Tid, Pc>, gate: Holder, write: Holder, readers: nat)

  datatype Action =
    | StartRead | TakeGate | Increment | TakeWrite | WriteFails | LeaveGate
    | StartUnlock | TakeUnlockGate | GateFails | Decrement | DropWrite | LeaveUnlockGate
    | StartWrite | EnterWrite | WriteLockFails | ExitWrite

  predicate Enabled(s: State, t: Tid, a: Action) {
    t in s.pc &&
    var pc := s.pc[t];
    match a
    case StartRead => pc.Outside?
    case TakeGate => pc.RdWantGate? && s.gate == Free
    case Increment => pc.RdCount?
    case TakeWrite => pc.RdWantWrite? && s.write == Free
    case WriteFails => pc.RdWantWrite?
    case LeaveGate => pc.RdLeaveGate?
    case StartUnlock => pc.Reading?
    case TakeUnlockGate => pc.UnWantGate? && s.gate == Free
    case GateFails => pc.UnWantGate? || pc.RdWantGate?
    case Decrement => pc.UnCount? && s.readers > 0
    case DropWrite => pc.UnDropWrite?
    case LeaveUnlockGate => pc.UnLeaveGate?
    case StartWrite => pc.Outside?
    case EnterWrite => pc.WrWant? && s.write == Free
    case WriteLockFails => pc.WrWant?
    case ExitWrite => pc.Writing?
  }

  function Move(s: State, t: Tid, pc: Pc): State { s.(pc := s.pc[t := pc]) }

  function Apply(s: State, t: Tid, a: Action): State
    requires Enabled(s, t, a)
  {
    match a
    case StartRead => Move(s, t, RdWantGate)
    case TakeGate => Move(s, t, RdCount).(gate := HeldBy(t))
    case Increment =>
      Move(s, t, if s.readers == 0 then RdWantWrite else RdLeaveGate(true)).(readers := s.readers + 1)
    case TakeWrite => Move(s, t, RdLeaveGate(true)).(write := HeldByReaders)
    case WriteFails => Move(s, t, RdLeaveGate(false)).(readers := 0)
    case LeaveGate => Move(s, t, if s.pc[t].granted then Reading else Outside).(gate := Free)
    case StartUnlock => Move(s, t, UnWantGate)
    case TakeUnlockGate => Move(s, t, UnCount).(gate := HeldBy(t))
    case GateFails => Move(s, t, if s.pc[t].UnWantGate? then Reading else Outside)
    case Decrement =>
      Move(s, t, if s.readers == 1 then UnDropWrite else UnLeaveGate).(readers := s.readers - 1)
    case DropWrite => Move(s, t, UnLeaveGate).(write := Free)
    case LeaveUnlockGate => Move(s, t, Outside).(gate := Free)
    case StartWrite => Move(s, t, WrWant)
    case EnterWrite => Move(s, t, Writing).(write := HeldBy(t))
    case WriteLockFails => Move(s, t, Outside)
    case ExitWrite => Move(s, t, Outside).(write := Free)
  }

  ghost predicate Init(s: State) {
    && (forall t :: t in s.pc ==> s.pc[t] == Outside)
    && s.gate == Free && s.write == Free && s.readers == 0
  }

  datatype Event = Event(t: Tid, a: Action)

  ghost predicate IsRun(run: seq<State>, acts: seq<Event>) {
    && |run| == |acts| + 1
    && Init(run[0])
    && forall i :: 0 <= i < |acts| ==>
         Enabled(run[i], acts[i].t, acts[i].a) && run[i+1] == Apply(run[i], acts[i].t, acts[i].a)
  }

  // -- Invariant --------------------------------------------------------------

  /** Threads the reader count stands for. */
  predicate Counted(pc: Pc) {
    pc.RdWantWrite? || pc == RdLeaveGate(true) || pc.Reading? || pc.UnWantGate? || pc.UnCount?
  }

  predicate InGate(pc: Pc) {
    pc.RdCount? || pc.RdWantWrite? || pc.RdLeaveGate? || pc.UnCount? || pc.UnDropWrite? || pc.UnLeaveGate?
  }

  /** A reader that may look at what the lock protects. */
  predicate ReaderInside(pc: Pc) { pc.Reading? || pc.UnWantGate? || pc == RdLeaveGate(true) || pc.UnCount? }

  ghost function CountedThreads(pcs: map<Tid, Pc>): set<Tid> { set t | t in pcs && Counted(pcs[t]) }

  /** The first reader before it has the write mutex, or the last one before it
      has let go: the only moments at which count and write mutex disagree. */
  predicate InTransition(pc: Pc) { pc.RdWantWrite? || pc.UnDropWrite? }

  /** Program counter of the thread inside the read mutex. */
  ghost function GatePc(s: State): Pc {
    if s.gate.HeldBy? && s.gate.t in s.pc then s.pc[s.gate.t] else Outside
  }

  ghost predicate MutexesMatch(s: State) {
    && s.gate != HeldByReaders
    && (forall t :: t in s.pc && InGate(s.pc[t]) ==> s.gate == HeldBy(t))
    && (s.gate.HeldBy? ==> s.gate.t in s.pc && InGate(s.pc[s.gate.t]))
    && (forall t :: t in s.pc && s.pc[t].Writing? ==> s.write == HeldBy(t))
    && (s.write.HeldBy? ==> s.write.t in s.pc && s.pc[s.write.t].Writing?)
  }

  ghost predicate CountMatchesWrite(s: State) {
    match GatePc(s)
    case RdWantWrite => s.readers == 1 && s.write != HeldByReaders
    case UnDropWrite => s.readers == 0 && s.write == HeldByReaders
    case _ => s.readers > 0 <==> s.write == HeldByReaders
  }

  ghost predicate Inv(s: State) {
    s.readers == |CountedThreads(s.pc)| && MutexesMatch(s) && CountMatchesWrite(s)
  }

  lemma CountAfterMove(pcs: map<Tid, Pc>, t: Tid, pc: Pc)
    requires t in pcs
    ensures Counted(pcs[t]) ==> |CountedThreads(pcs)| > 0
    ensures |CountedThreads(pcs[t := pc])| == |CountedThreads(pcs)|
        + (if Counted(pc) then 1 else 0) - (if Counted(pcs[t]) then 1 else 0)
  {
    var before, after := CountedThreads(pcs), CountedThreads(pcs[t := pc]);
    assert after == if Counted(pc) then before + {t} else before - {t};
    assert t in before <==> Counted(pcs[t]);
  }

  lemma StepKeepsMutexes(s: State, t: Tid, a: Action)
    requires MutexesMatch(s) && CountMatchesWrite(s) && Enabled(s, t, a)
    ensures MutexesMatch(Apply(s, t, a))
  {}

  /** Nobody but `t` moves, so the thread in the gate is `t` or has not moved. */
  lemma GateAfterStep(s: State, t: Tid, a: Action)
    requires MutexesMatch(s) && Enabled(s, t, a)
    ensures var s' := Apply(s, t, a);
      GatePc(s') == if InGate(s'.pc[t]) then s'.pc[t] else if InGate(s.pc[t]) then Outside else GatePc(s)
  {}

  lemma StepKeeps(s: State, t: Tid, a: Action)
    requires Inv(s) && Enabled(s, t, a)
    ensures Inv(Apply(s, t, a))
  {
    var s' := Apply(s, t, a);
    CountAfterMove(s.pc, t, s'.pc[t]);
    StepKeepsMutexes(s, t, a);
    GateAfterStep(s, t, a);
  }

  lemma {:induction false} RunKeeps(run: seq<State>, acts: seq<Event>, i: nat)
    requires IsRun(run, acts) && i < |run|
    ensures Inv(run[i])
  {
    if i == 0 {
      assert CountedThreads(run[0].pc) == {};
    } else {
      RunKeeps(run, acts, i - 1);
      assert run[i] == Apply(run[i-1], acts[i-1].t, acts[i-1].a);
      StepKeeps(run[i-1], acts[i-1].t, acts[i-1].a);
    }
  }

  // -- Main results -----------------------------------------------------------

  /** No writer is ever inside together with a reader or another writer. */
  lemma WriterIsAlone(run: seq<State>, acts: seq<Event>, i: nat, w: Tid, u: Tid)
    requires IsRun(run, acts) && i < |run|
    requires w in run[i].pc && u in run[i].pc && w != u && run[i].pc[w].Writing?
    ensures !run[i].pc[u].Writing? && !ReaderInside(run[i].pc[u])
  {
    RunKeeps(run, acts, i);
    var s := run[i];
    if ReaderInside(s.pc[u]) {
      assert u in CountedThreads(s.pc);
      if GatePc(s).RdWantWrite? {
        assert {u, s.gate.t} <= CountedThreads(s.pc);
        assert |{u, s.gate.t}| == 2;
        SubsetSize({u, s.gate.t}, CountedThreads(s.pc));
      }
    }
  }

  lemma {:induction false} SubsetSize(a: set<Tid>, b: set<Tid>)
    requires a <= b
    ensures |a| <= |b|
  {
    if a != {} {
      var x :| x in a;
      SubsetSize(a - {x}, b - {x});
    }
  }

  /** Outside the two transition steps the write mutex is taken exactly when a
      writer is inside or the reader count is positive; the count is the number
      of readers. */
  lemma WriteMutexMeaning(run: seq<State>, acts: seq<Event>, i: nat)
    requires IsRun(run, acts) && i < |run|
    requires forall t :: t in run[i].pc ==> !InTransition(run[i].pc[t])
    ensures run[i].write != Free <==> run[i].readers > 0 || exists t :: t in run[i].pc && run[i].pc[t].Writing?
    ensures run[i].readers == |CountedThreads(run[i].pc)|
  {
    RunKeeps(run, acts, i);
    var s := run[i];
    assert s.gate.HeldBy? ==> !InTransition(s.pc[s.gate.t]);
  }

  /** The count never underflows: a thread about to decrement finds it positive. */
  lemma DecrementAlwaysEnabled(run: seq<State>, acts: seq<Event>, i: nat, t: Tid)
    requires IsRun(run, acts) && i < |run| && t in run[i].pc && run[i].pc[t].UnCount?
    ensures Enabled(run[i], t, Decrement)
  {
    RunKeeps(run, acts, i);
    assert t in CountedThreads(run[i].pc);
  }
}
