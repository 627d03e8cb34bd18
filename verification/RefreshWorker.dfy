/**
 The refresh that follows every grant write.  Callers set a flag; one worker
 clears it and asks the manager to look again, until the flag stays clear.
 */
module RefreshWorker {

  datatype Flags = Flags(queued: bool, running: bool)

  /** The critical section of a caller: the new flags, and whether it must start a worker. */
  function Request(f: Flags): (Flags, bool) {
    (Flags(true, true), !f.running)
  }

  /** The critical section of the worker: the new flags, and whether there is work. */
  function Take(f: Flags): (Flags, bool) {
    if f.queued then (Flags(false, f.running), true) else (Flags(false, false), false)
  }

  /** The two flags under the mutex. */
  class RefreshState {
    var refreshQueued: bool
    var refreshRunning: bool

    function Now(): Flags
      reads this
    {
      Flags(refreshQueued, refreshRunning)
    }

    constructor ()
      ensures Now() == Flags(false, false)
    {
      refreshQueued, refreshRunning := false, false;
    }

    method RequestRefresh() returns (spawn: bool)
      modifies this
      ensures (Now(), spawn) == Request(old(Now()))
    {
      refreshQueued := true;
      if refreshRunning {
        return false;
      }
      refreshRunning := true;
      spawn := true;
    }

    method TakeWork() returns (work: bool)
      modifies this
      ensures (Now(), work) == Take(old(Now()))
    {
      if !refreshQueued {
        refreshRunning := false;
        return false;
      }
      refreshQueued := false;
      work := true;
    }
  }

  /** A worker is about to lock, has cleared the flag, or runs the manager's refresh. */
  datatype Pc = AtLock | Cleared | Refreshing

  /**
   `clock` counts steps; `lastRequest` and `lastStart` are the times of the last
   request and of the last refresh that started, 0 when there was none.
   */
  datatype System = System(
    flags: Flags, workers: map<nat, Pc>, contextEnded: bool,
    clock: nat, lastRequest: nat, lastStart: nat, requests: nat, starts: nat)

  const Init := System(Flags(false, false), map[], false, 0, 0, 0, 0, 0)

  datatype Step =
    | Call(worker: nat)  // the worker is started only if none runs
    | Lock(worker: nat)
    | Refresh(worker: nat)
    | Finish(worker: nat)
    | EndContext

  ghost predicate Enabled(s: System, step: Step) {
    match step
    case Call(w) => w !in s.workers
    case Lock(w) => w in s.workers && s.workers[w] == AtLock
    case Refresh(w) => w in s.workers && s.workers[w] == Cleared
    case Finish(w) => w in s.workers && s.workers[w] == Refreshing
    case EndContext => true
  }

  function Next(s: System, step: Step): System
    requires Enabled(s, step)
  {
    var s := s.(clock := s.clock + 1);
    match step
    case Call(w) =>
      var (flags, spawn) := Request(s.flags);
      s.(flags := flags, workers := if spawn then s.workers[w := AtLock] else s.workers,
         lastRequest := s.clock, requests := s.requests + 1)
    case Lock(w) =>
      var (flags, work) := Take(s.flags);
      s.(flags := flags, workers := if work then s.workers[w := Cleared] else s.workers - {w})
    case Refresh(w) =>
      // An ended context skips the manager; the loop goes on.
      if s.contextEnded then s.(workers := s.workers[w := AtLock])
      else s.(workers := s.workers[w := Refreshing], lastStart := s.clock, starts := s.starts + 1)
    case Finish(w) => s.(workers := s.workers[w := AtLock])
    case EndContext => s.(contextEnded := true)
  }

  ghost predicate Trace(states: seq<System>, steps: seq<Step>) {
    && |states| == |steps| + 1 && states[0] == Init
    && forall i | 0 <= i < |steps| :: Enabled(states[i], steps[i]) && states[i + 1] == Next(states[i], steps[i])
  }

  ghost predicate OneWorker(s: System) {
    && (s.flags.running <==> s.workers != map[])
    && (forall v, w | v in s.workers && w in s.workers :: v == w)
    && (s.flags.queued ==> s.flags.running)
  }

  predicate HasCleared(s: System) {
    exists w | w in s.workers :: s.workers[w] == Cleared
  }

  ghost predicate Inv(s: System) {
    && OneWorker(s)
    && s.lastRequest <= s.clock && s.lastStart <= s.clock
    // A request is answered, or the flag still says so, or the worker has read the flag and not yet started.
    && (!s.contextEnded && !s.flags.queued && !HasCleared(s) ==> s.requests == 0 || s.lastRequest < s.lastStart)
    && s.starts + (if s.flags.queued then 1 else 0) + (if HasCleared(s) then 1 else 0) <= s.requests
  }

  lemma StepKeeps(s: System, step: Step)
    requires Inv(s) && Enabled(s, step)
    ensures Inv(Next(s, step))
  {
    var t := Next(s, step);
    match step
    case Call(w) =>
      if s.flags.running {
        assert t.workers == s.workers;
      } else {
        assert t.workers[w] == AtLock;
      }
    case Lock(w) =>
      if s.flags.queued {
        assert t.workers[w] == Cleared;
      } else {
        assert forall v | v in s.workers :: v == w;
        assert t.workers == map[];
      }
    case Refresh(w) =>
      assert s.workers[w] == Cleared && w in t.workers;
      assert !HasCleared(t) by {
        forall v | v in t.workers ensures t.workers[v] != Cleared {
          assert v in s.workers && v == w;
        }
      }
    case Finish(w) =>
      assert w in t.workers;
      assert !HasCleared(t) by {
        forall v | v in t.workers ensures t.workers[v] != Cleared {
          assert v in s.workers && v == w;
        }
      }
    case EndContext =>
      assert t.workers == s.workers;
  }

  lemma {:induction false} TraceInv(states: seq<System>, steps: seq<Step>, i: nat)
    requires Trace(states, steps) && i < |states|
    ensures Inv(states[i])
  {
    hide Inv, Next, Enabled;
    if i == 0 {
      InitInv();
    } else {
      TraceInv(states, steps, i - 1);
      StepKeeps(states[i - 1], steps[i - 1]);
    }
  }

  lemma InitInv()
    ensures Inv(Init)
  {
  }

  /** In every interleaving there is at most one worker, and it is there exactly when the flag says so. */
  lemma AtMostOneWorker(states: seq<System>, steps: seq<Step>, i: nat)
    requires Trace(states, steps) && i < |states|
    ensures |states[i].workers| <= 1 && (states[i].flags.running <==> |states[i].workers| == 1)
  {
    TraceInv(states, steps, i);
    var workers := states[i].workers;
    if workers != map[] {
      var w :| w in workers;
      assert workers.Keys == {w};
    }
  }

  /** The requests before step i. */
  ghost function Requests(steps: seq<Step>, i: nat): set<nat>
    requires i <= |steps|
  {
    set k: nat | k < i && steps[k].Call?
  }

  /** The refreshes that the manager started before step i: those that found the context alive. */
  ghost function Starts(states: seq<System>, steps: seq<Step>, i: nat): set<nat>
    requires i <= |steps| && |states| == |steps| + 1
  {
    set k: nat | k < i && steps[k].Refresh? && !states[k].contextEnded
  }

  /** The counters and times of the state are those of the steps. */
  lemma {:induction false} StepsTell(states: seq<System>, steps: seq<Step>, i: nat)
    requires Trace(states, steps) && i < |states|
    ensures var s := states[i];
            && s.clock == i && s.lastRequest <= i
            && s.requests == |Requests(steps, i)| && s.starts == |Starts(states, steps, i)|
            && (forall k | k in Requests(steps, i) :: k < s.lastRequest)
            && (s.lastStart > 0 ==> s.lastStart - 1 in Starts(states, steps, i))
            && (s.contextEnded <==> exists k :: 0 <= k < i && steps[k] == EndContext)
  {
    hide Next, Enabled, Requests, Starts;
    NothingYet(states, steps);
    if i > 0 {
      StepsTell(states, steps, i - 1);
      RequestsGrow(steps, i - 1);
      StartsGrow(states, steps, i - 1);
      Counted(states[i - 1], steps[i - 1]);
    }
  }

  lemma NothingYet(states: seq<System>, steps: seq<Step>)
    requires |states| == |steps| + 1
    ensures Requests(steps, 0) == {} && Starts(states, steps, 0) == {}
  {
  }

  lemma RequestsGrow(steps: seq<Step>, k: nat)
    requires k < |steps|
    ensures Requests(steps, k + 1) == Requests(steps, k) + if steps[k].Call? then {k} else {}
    ensures |Requests(steps, k + 1)| == |Requests(steps, k)| + if steps[k].Call? then 1 else 0
  {
    assert Requests(steps, k + 1) == Requests(steps, k) + if steps[k].Call? then {k} else {};
  }

  lemma StartsGrow(states: seq<System>, steps: seq<Step>, k: nat)
    requires k < |steps| && |states| == |steps| + 1
    ensures var more := steps[k].Refresh? && !states[k].contextEnded;
            && Starts(states, steps, k + 1) == Starts(states, steps, k) + (if more then {k} else {})
            && |Starts(states, steps, k + 1)| == |Starts(states, steps, k)| + if more then 1 else 0
  {
    assert Starts(states, steps, k + 1) == Starts(states, steps, k) + if steps[k].Refresh? && !states[k].contextEnded then {k} else {};
  }

  lemma Counted(s: System, step: Step)
    requires Enabled(s, step)
    ensures var t := Next(s, step);
            && t.clock == s.clock + 1
            && t.requests == s.requests + (if step.Call? then 1 else 0)
            && t.lastRequest == (if step.Call? then t.clock else s.lastRequest)
            && t.starts == s.starts + (if step.Refresh? && !s.contextEnded then 1 else 0)
            && t.lastStart == (if step.Refresh? && !s.contextEnded then t.clock else s.lastStart)
            && (t.contextEnded <==> s.contextEnded || step == EndContext)
  {
  }

  /**
   No wake-up is lost: while the context lives, whenever no worker runs, every request
   was followed by a refresh that the manager started.
   */
  lemma NoWakeupLost(states: seq<System>, steps: seq<Step>, i: nat, k: nat) returns (m: nat)
    requires Trace(states, steps) && i < |states| && k < i && steps[k].Call?
    requires states[i].workers == map[] && forall j | 0 <= j < i :: steps[j] != EndContext
    ensures k < m < i && steps[m].Refresh? && !states[m].contextEnded
  {
    TraceInv(states, steps, i);
    StepsTell(states, steps, i);
    assert k in Requests(steps, i);
    m := states[i].lastStart - 1;
    assert m in Starts(states, steps, i);
  }

  /** Coalescing: refreshes never outnumber requests. */
  lemma RefreshesAreRequested(states: seq<System>, steps: seq<Step>, i: nat)
    requires Trace(states, steps) && i < |states|
    ensures |Starts(states, steps, i)| <= |Requests(steps, i)|
  {
    TraceInv(states, steps, i);
    StepsTell(states, steps, i);
  }

  /** A request can always come, with a name for its worker that no other has, and the context can always end. */
  lemma CanRequest(s: System, w: nat)
    ensures Enabled(s, Call(w)) <==> w !in s.workers
    ensures Enabled(s, EndContext)
  {
  }

  /** It happens: a request on an idle process starts a worker, which starts a refresh and ends. */
  lemma RequestIsServed() returns (states: seq<System>, steps: seq<Step>)
    ensures Trace(states, steps) && steps == [Call(0), Lock(0), Refresh(0), Finish(0), Lock(0)]
    ensures !states[2].contextEnded && states[5].workers == map[]
  {
    var s1 := System(Flags(true, true), map[0 := AtLock], false, 1, 1, 0, 1, 0);
    var s2 := System(Flags(false, true), map[0 := Cleared], false, 2, 1, 0, 1, 0);
    var s3 := System(Flags(false, true), map[0 := Refreshing], false, 3, 1, 3, 1, 1);
    var s4 := System(Flags(false, true), map[0 := AtLock], false, 4, 1, 3, 1, 1);
    var s5 := System(Flags(false, false), map[], false, 5, 1, 3, 1, 1);
    states := [Init, s1, s2, s3, s4, s5];
    steps := [Call(0), Lock(0), Refresh(0), Finish(0), Lock(0)];
    assert Next(Init, Call(0)) == s1;
    assert Next(s1, Lock(0)) == s2;
    assert Next(s2, Refresh(0)) == s3;
    assert Next(s3, Finish(0)) == s4;
    assert s4.workers - {0} == map[];
    assert Next(s4, Lock(0)) == s5;
  }

  /** The steps the worker still has to make if no further request comes. */
  function Remaining(s: System, w: nat): nat
    requires w in s.workers
  {
    (if s.flags.queued then 3 else 0) +
    match s.workers[w] case Cleared => 3 case Refreshing => 2 case AtLock => 1
  }

  /** The worker ends: each of its steps brings it nearer, and it always has one to make. */
  lemma WorkerEnds(s: System, step: Step, w: nat)
    requires Inv(s) && w in s.workers && Enabled(s, step)
    requires step == Lock(w) || step == Refresh(w) || step == Finish(w)
    ensures var t := Next(s, step);
            if w in t.workers then Remaining(t, w) < Remaining(s, w) else !t.flags.running && t.workers == map[]
    ensures Remaining(s, w) <= 6
  {
    StepKeeps(s, step);
    if step.Lock? && !s.flags.queued {
      assert forall v | v in s.workers :: v == w;
      assert Next(s, step).workers == map[];
    }
  }

  lemma WorkerCanMove(s: System, w: nat)
    requires w in s.workers
    ensures Enabled(s, Lock(w)) || Enabled(s, Refresh(w)) || Enabled(s, Finish(w))
  {
  }
}
