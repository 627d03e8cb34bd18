/**
 The permits of the native decision transport.  A call takes an admission permit,
 then an operation slot, and hands both to a worker; the caller may leave first.
 */
module DecisionPermits {
  import opened Basics

  const MAX_ADMISSIONS := 8
  const MAX_OPERATIONS := 8

  datatype Answer = ContextError | AdmissionFull | BadRequest | OperationsFull | Result

  datatype CallerPc =
    | Entering          // before the first look at the context
    | Asking            // about to ask for an admission
    | Rechecking        // admitted; looks at the context once more
    | Admitted          // checks and marshals the request
    | Ready             // about to take an operation slot
    | Waiting           // the worker owns the permits
    | Returned(answer: Answer)

  datatype WorkerPc =
    | NoWorker | Working | Sending | ReturningSlot | Releasing | Ended

  datatype Releaser = NotReleased | ByAdmission | ByCaller | ByWorker

  /** `releases` counts calls of the release function, `sent` the sends on the result channel, `buffered` what it holds. */
  datatype Call = Call(
    caller: CallerPc, worker: WorkerPc, cancelled: bool,
    releases: nat, releaser: Releaser, sent: nat, buffered: nat)

  /** `admitted` and `operations` are the lengths of the two channels; `others` are admissions of other users. */
  datatype System = System(calls: map<nat, Call>, admitted: nat, operations: nat, others: nat)

  const Init := System(map[], 0, 0, 0)

  datatype Step =
    | Begin(id: nat)
    | Cancel(id: nat)
    | Check(id: nat)
    | Acquire(id: nat)
    | Recheck(id: nat)
    | Validate(id: nat, valid: bool)
    | TakeSlot(id: nat)
    | Receive(id: nat)
    | Abandon(id: nat)
    | Work(id: nat)
    | Send(id: nat)
    | ReturnSlot(id: nat)
    | Release(id: nat)
    | OtherAcquire
    | OtherRelease

  function Fresh(): Call {
    Call(Entering, NoWorker, false, 0, NotReleased, 0, 0)
  }

  /** A step that takes from a channel waits until the channel holds something, a send until there is room. */
  ghost predicate Enabled(s: System, step: Step) {
    match step
    case Begin(id) => id !in s.calls
    case Cancel(id) => id in s.calls
    case Check(id) => id in s.calls && s.calls[id].caller == Entering
    case Acquire(id) => id in s.calls && s.calls[id].caller == Asking
    case Recheck(id) => id in s.calls && s.calls[id].caller == Rechecking && (s.calls[id].cancelled ==> s.admitted > 0)
    case Validate(id, valid) => id in s.calls && s.calls[id].caller == Admitted && (!valid ==> s.admitted > 0)
    case TakeSlot(id) =>
      id in s.calls && s.calls[id].caller == Ready && (s.operations >= MAX_OPERATIONS ==> s.admitted > 0)
    case Receive(id) => id in s.calls && s.calls[id].caller == Waiting && s.calls[id].buffered > 0
    case Abandon(id) => id in s.calls && s.calls[id].caller == Waiting && s.calls[id].cancelled
    case Work(id) => id in s.calls && s.calls[id].worker == Working
    case Send(id) => id in s.calls && s.calls[id].worker == Sending && s.calls[id].buffered < 1
    case ReturnSlot(id) => id in s.calls && s.calls[id].worker == ReturningSlot && s.operations > 0
    case Release(id) => id in s.calls && s.calls[id].worker == Releasing && s.admitted > 0
    case OtherAcquire => s.admitted < MAX_ADMISSIONS
    case OtherRelease => s.others > 0 && s.admitted > 0
  }

  /** Calls the release function: it takes one permit out of the channel. */
  function Released(s: System, id: nat, c: Call, releaser: Releaser): System
    requires s.admitted > 0
  {
    s.(admitted := s.admitted - 1, calls := s.calls[id := c.(releases := c.releases + 1, releaser := releaser)])
  }

  function Next(s: System, step: Step): System
    requires Enabled(s, step)
  {
    match step
    case Begin(id) => s.(calls := s.calls[id := Fresh()])
    case Cancel(id) => s.(calls := s.calls[id := s.calls[id].(cancelled := true)])
    case Check(id) =>
      var c := s.calls[id];
      s.(calls := s.calls[id := c.(caller := if c.cancelled then Returned(ContextError) else Asking)])
    case Acquire(id) =>
      var c := s.calls[id];
      if c.cancelled then s.(calls := s.calls[id := c.(caller := Returned(ContextError))])
      else if s.admitted < MAX_ADMISSIONS then
        s.(admitted := s.admitted + 1, calls := s.calls[id := c.(caller := Rechecking)])
      else s.(calls := s.calls[id := c.(caller := Returned(AdmissionFull))])
    case Recheck(id) =>
      var c := s.calls[id];
      if c.cancelled then Released(s, id, c.(caller := Returned(ContextError)), ByAdmission)
      else s.(calls := s.calls[id := c.(caller := Admitted)])
    case Validate(id, valid) =>
      var c := s.calls[id];
      if valid then s.(calls := s.calls[id := c.(caller := Ready)])
      else Released(s, id, c.(caller := Returned(BadRequest)), ByCaller)
    case TakeSlot(id) =>
      var c := s.calls[id];
      if s.operations < MAX_OPERATIONS then
        s.(operations := s.operations + 1, calls := s.calls[id := c.(caller := Waiting, worker := Working)])
      else Released(s, id, c.(caller := Returned(OperationsFull)), ByCaller)
    case Receive(id) =>
      var c := s.calls[id];
      s.(calls := s.calls[id := c.(buffered := c.buffered - 1,
                                   caller := Returned(if c.cancelled then ContextError else Result))])
    case Abandon(id) => s.(calls := s.calls[id := s.calls[id].(caller := Returned(ContextError))])
    case Work(id) => s.(calls := s.calls[id := s.calls[id].(worker := Sending)])
    case Send(id) =>
      var c := s.calls[id];
      s.(calls := s.calls[id := c.(worker := ReturningSlot, sent := c.sent + 1, buffered := c.buffered + 1)])
    case ReturnSlot(id) =>
      s.(operations := s.operations - 1, calls := s.calls[id := s.calls[id].(worker := Releasing)])
    case Release(id) => Released(s, id, s.calls[id].(worker := Ended), ByWorker)
    case OtherAcquire => s.(admitted := s.admitted + 1, others := s.others + 1)
    case OtherRelease => s.(admitted := s.admitted - 1, others := s.others - 1)
  }

  // ---------- Who holds what ----------

  predicate HoldsAdmission(c: Call) {
    c.caller in {Rechecking, Admitted, Ready} || c.worker in {Working, Sending, ReturningSlot, Releasing}
  }

  predicate HoldsSlot(c: Call) {
    c.worker in {Working, Sending, ReturningSlot}
  }

  ghost function AdmissionHolders(calls: map<nat, Call>): set<nat> {
    set id | id in calls && HoldsAdmission(calls[id])
  }

  ghost function SlotHolders(calls: map<nat, Call>): set<nat> {
    set id | id in calls && HoldsSlot(calls[id])
  }

  /** What one call looks like at any time. */
  predicate CallInv(c: Call) {
    && (c.worker != NoWorker ==> c.caller.Waiting? || c.caller.Returned?)
    && (c.caller.Waiting? ==> c.worker != NoWorker)
    && c.releases <= 1 && (c.releases == 0 <==> c.releaser == NotReleased)
    && (HoldsAdmission(c) ==> c.releases == 0)
    && (c.caller in {Entering, Asking} ==> c.releases == 0)
    && (c.caller in {Returned(AdmissionFull), Returned(BadRequest), Returned(OperationsFull)} ==> c.worker == NoWorker)
    && (c.worker == Ended ==> c.releaser == ByWorker)
    && (c.releaser == ByWorker ==> c.worker == Ended)
    && (c.caller.Returned? && c.worker == NoWorker ==>
          match c.caller.answer
          case AdmissionFull => c.releases == 0
          case BadRequest => c.releaser == ByCaller
          case OperationsFull => c.releaser == ByCaller
          case ContextError => c.releaser in {NotReleased, ByAdmission}
          case Result => false)
    && c.sent == (if c.worker in {ReturningSlot, Releasing, Ended} then 1 else 0)
    && c.buffered <= c.sent
    && (c.caller.Waiting? ==> c.buffered == c.sent)
    && (c.caller == Returned(Result) ==> c.sent == 1)
  }

  ghost predicate Inv(s: System) {
    && s.admitted == |AdmissionHolders(s.calls)| + s.others <= MAX_ADMISSIONS
    && s.operations == |SlotHolders(s.calls)|
    && forall id | id in s.calls :: CallInv(s.calls[id])
  }

  /** A release never blocks: its own permit is in the channel. */
  lemma PermitIsThere(s: System, id: nat)
    requires Inv(s) && id in s.calls && HoldsAdmission(s.calls[id])
    ensures s.admitted > 0
  {
    assert id in AdmissionHolders(s.calls);
  }

  /** Every slot holder holds an admission, so slots in use never exceed admissions in use. */
  lemma SlotsWithinAdmissions(s: System)
    requires Inv(s)
    ensures SlotHolders(s.calls) <= AdmissionHolders(s.calls)
    ensures s.operations <= s.admitted
  {
    SubsetSize(SlotHolders(s.calls), AdmissionHolders(s.calls));
  }

  /** One call changes: how the two holder sets follow. */
  lemma HoldersFollow(calls: map<nat, Call>, id: nat, c: Call)
    ensures var after := calls[id := c];
            && AdmissionHolders(after) == (if HoldsAdmission(c) then AdmissionHolders(calls) + {id} else AdmissionHolders(calls) - {id})
            && SlotHolders(after) == (if HoldsSlot(c) then SlotHolders(calls) + {id} else SlotHolders(calls) - {id})
  {
  }

  /** The changed call keeps its own invariant, and the channels follow its permits. */
  ghost predicate Follows(s: System, t: System, id: nat) {
    && id in t.calls && t.calls == s.calls[id := t.calls[id]] && t.others == s.others
    && CallInv(t.calls[id])
    && t.admitted == s.admitted + Held(HoldsAdmission(t.calls[id])) - Held(id in s.calls && HoldsAdmission(s.calls[id]))
    && t.operations == s.operations + Held(HoldsSlot(t.calls[id])) - Held(id in s.calls && HoldsSlot(s.calls[id]))
  }

  lemma EntryKeeps(s: System, step: Step)
    requires Inv(s) && Enabled(s, step) && (step.Begin? || step.Cancel? || step.Check? || step.Acquire?)
    ensures Follows(s, Next(s, step), step.id)
  {
    hide AdmissionHolders, SlotHolders;
    assert step.id in s.calls ==> CallInv(s.calls[step.id]);
  }

  lemma RecheckKeeps(s: System, step: Step)
    requires Inv(s) && Enabled(s, step) && step.Recheck?
    ensures Follows(s, Next(s, step), step.id)
  {
    hide AdmissionHolders, SlotHolders;
    assert CallInv(s.calls[step.id]);
  }

  lemma ValidateKeeps(s: System, step: Step)
    requires Inv(s) && Enabled(s, step) && step.Validate?
    ensures Follows(s, Next(s, step), step.id)
  {
    hide AdmissionHolders, SlotHolders;
    assert CallInv(s.calls[step.id]);
  }

  lemma SlotKeeps(s: System, step: Step)
    requires Inv(s) && Enabled(s, step) && step.TakeSlot?
    ensures Follows(s, Next(s, step), step.id)
  {
    hide AdmissionHolders, SlotHolders;
    assert CallInv(s.calls[step.id]);
  }

  lemma ReturnKeeps(s: System, step: Step)
    requires Inv(s) && Enabled(s, step) && (step.Receive? || step.Abandon?)
    ensures Follows(s, Next(s, step), step.id)
  {
    hide AdmissionHolders, SlotHolders;
    assert CallInv(s.calls[step.id]);
  }

  lemma WorkerKeeps(s: System, step: Step)
    requires Inv(s) && Enabled(s, step) && (step.Work? || step.Send? || step.ReturnSlot? || step.Release?)
    ensures Follows(s, Next(s, step), step.id)
  {
    hide AdmissionHolders, SlotHolders;
    assert CallInv(s.calls[step.id]);
  }

  lemma CallKeeps(s: System, step: Step)
    requires Inv(s) && Enabled(s, step) && !step.OtherAcquire? && !step.OtherRelease?
    ensures Follows(s, Next(s, step), step.id)
  {
    hide Inv, Next, Enabled, Follows;
    match step
    case Begin(_) => EntryKeeps(s, step);
    case Cancel(_) => EntryKeeps(s, step);
    case Check(_) => EntryKeeps(s, step);
    case Acquire(_) => EntryKeeps(s, step);
    case Recheck(_) => RecheckKeeps(s, step);
    case Validate(_, _) => ValidateKeeps(s, step);
    case TakeSlot(_) => SlotKeeps(s, step);
    case Receive(_) => ReturnKeeps(s, step);
    case Abandon(_) => ReturnKeeps(s, step);
    case _ => WorkerKeeps(s, step);
  }

  function Held(b: bool): int {
    if b then 1 else 0
  }

  lemma StepKeeps(s: System, step: Step)
    requires Inv(s) && Enabled(s, step)
    ensures Inv(Next(s, step))
  {
    if step.OtherAcquire? || step.OtherRelease? {
      hide AdmissionHolders, SlotHolders, CallInv;
    } else {
      CallKeeps(s, step);
      AdmissionLimit(s, step);
      hide Next, Inv, Follows;
      FollowedKeeps(s, Next(s, step), step.id);
    }
  }

  lemma FollowedKeeps(s: System, t: System, id: nat)
    requires Inv(s) && Follows(s, t, id) && t.admitted <= MAX_ADMISSIONS
    ensures Inv(t)
  {
    hide AdmissionHolders, SlotHolders, CallInv, HoldsAdmission, HoldsSlot;
    HoldersFollow(s.calls, id, t.calls[id]);
    HoldersMembers(s.calls, id);
  }

  lemma AdmissionLimit(s: System, step: Step)
    requires Inv(s) && Enabled(s, step)
    ensures Next(s, step).admitted <= MAX_ADMISSIONS
  {
    hide AdmissionHolders, SlotHolders, CallInv;
  }

  lemma HoldersMembers(calls: map<nat, Call>, id: nat)
    ensures id in AdmissionHolders(calls) <==> id in calls && HoldsAdmission(calls[id])
    ensures id in SlotHolders(calls) <==> id in calls && HoldsSlot(calls[id])
  {
  }

  ghost predicate Trace(states: seq<System>, steps: seq<Step>) {
    && |states| == |steps| + 1 && states[0] == Init
    && forall i | 0 <= i < |steps| :: Enabled(states[i], steps[i]) && states[i + 1] == Next(states[i], steps[i])
  }

  lemma {:induction false} TraceInv(states: seq<System>, steps: seq<Step>, i: nat)
    requires Trace(states, steps) && i < |states|
    ensures Inv(states[i])
  {
    hide Next, Enabled;
    if i == 0 {
      assert AdmissionHolders(Init.calls) == {} && SlotHolders(Init.calls) == {};
    } else {
      hide Inv;
      TraceInv(states, steps, i - 1);
      StepKeeps(states[i - 1], steps[i - 1]);
    }
  }

  // ---------- What follows for every interleaving ----------

  /** Slots in use are the workers that have not returned theirs, and at most eight. */
  lemma SlotsAreWorkers(states: seq<System>, steps: seq<Step>, i: nat)
    requires Trace(states, steps) && i < |states|
    ensures var s := states[i];
            && s.operations == |SlotHolders(s.calls)| <= 8
            && s.admitted == |AdmissionHolders(s.calls)| + s.others <= 8
            && SlotHolders(s.calls) <= AdmissionHolders(s.calls)
  {
    TraceInv(states, steps, i);
    SlotsWithinAdmissions(states[i]);
  }

  /**
   The answer "operation capacity reached" is never given.  The two limits are
   equal, a worker keeps its admission longer than its slot, and a caller that
   asks for a slot holds an admission without one, so a slot is always free.
   */
  lemma OperationsNeverFull(states: seq<System>, steps: seq<Step>, i: nat, id: nat)
    requires Trace(states, steps) && i < |states| && id in states[i].calls
    ensures states[i].calls[id].caller == Ready ==> states[i].operations < MAX_OPERATIONS
    ensures states[i].calls[id].caller != Returned(OperationsFull)
    decreases i
  {
    hide Inv, Next, Enabled;
    TraceInv(states, steps, i);
    if states[i].calls[id].caller == Ready {
      SlotIsFree(states[i], id);
    }
    if i > 0 {
      TraceInv(states, steps, i - 1);
      if id in states[i - 1].calls {
        OperationsNeverFull(states, steps, i - 1, id);
        if states[i - 1].calls[id].caller == Ready {
          SlotIsFree(states[i - 1], id);
        }
      }
      NotFullAfter(states[i - 1], steps[i - 1], id);
    }
  }

  lemma SlotIsFree(s: System, id: nat)
    requires Inv(s) && id in s.calls && s.calls[id].caller == Ready
    ensures s.operations < MAX_OPERATIONS
  {
    assert CallInv(s.calls[id]);
    HoldersMembers(s.calls, id);
    SlotsWithinAdmissions(s);
    SubsetSize(SlotHolders(s.calls) + {id}, AdmissionHolders(s.calls));
  }

  lemma NotFullAfter(s: System, step: Step, id: nat)
    requires Enabled(s, step) && id in Next(s, step).calls
    requires id in s.calls ==> s.calls[id].caller != Returned(OperationsFull)
    requires id in s.calls && s.calls[id].caller == Ready ==> s.operations < MAX_OPERATIONS
    ensures Next(s, step).calls[id].caller != Returned(OperationsFull)
  {
  }

  /**
   A permit is released exactly once: by the admission itself or the caller before
   the hand-over, by the worker after it; a call that was never admitted releases
   nothing.  When all calls are over, every slot and every own permit is back.
   */
  lemma ReleasedExactlyOnce(states: seq<System>, steps: seq<Step>, i: nat, id: nat)
    requires Trace(states, steps) && i < |states| && id in states[i].calls
    ensures var c := states[i].calls[id];
            && c.releases <= 1
            && (HoldsAdmission(c) ==> c.releases == 0)
            && (c.worker == Ended ==> c.releases == 1 && c.releaser == ByWorker)
            && (c.caller.Returned? && c.worker == NoWorker ==> (c.releases == 1 <==> c.releaser in {ByAdmission, ByCaller}))
            && (c.caller in {Returned(BadRequest), Returned(OperationsFull)} ==> c.releases == 1)
    ensures (forall k | k in states[i].calls :: states[i].calls[k].caller.Returned?
                                                && states[i].calls[k].worker in {NoWorker, Ended})
            ==> states[i].operations == 0 && states[i].admitted == states[i].others
  {
    TraceInv(states, steps, i);
    var s := states[i];
    if forall k | k in s.calls :: s.calls[k].caller.Returned? && s.calls[k].worker in {NoWorker, Ended} {
      assert AdmissionHolders(s.calls) == {} && SlotHolders(s.calls) == {};
    }
  }

  /** A caller never blocks either: whenever it may have to give its permit back, a permit is there to take. */
  lemma CallerNeverBlocks(states: seq<System>, steps: seq<Step>, i: nat, id: nat, valid: bool)
    requires Trace(states, steps) && i < |states| && id in states[i].calls
    ensures var s := states[i];
            match s.calls[id].caller
            case Entering => Enabled(s, Check(id))
            case Asking => Enabled(s, Acquire(id))
            case Rechecking => Enabled(s, Recheck(id))
            case Admitted => Enabled(s, Validate(id, valid))
            case Ready => Enabled(s, TakeSlot(id))
            case Waiting => s.calls[id].cancelled || s.calls[id].buffered == 1 || s.calls[id].worker in {Working, Sending}
            case Returned(_) => true
  {
    TraceInv(states, steps, i);
    var s := states[i];
    if HoldsAdmission(s.calls[id]) {
      PermitIsThere(s, id);
    }
  }

  /**
   No worker ever blocks: it sends one result into an empty buffer of one, even if
   its caller has left, and both channels hold what it takes out of them.
   */
  lemma WorkerNeverBlocks(states: seq<System>, steps: seq<Step>, i: nat, id: nat)
    requires Trace(states, steps) && i < |states| && id in states[i].calls
    ensures var s := states[i];
            var c := s.calls[id];
            && c.sent <= 1 && c.buffered <= 1
            && match c.worker
               case Working => Enabled(s, Work(id))
               case Sending => Enabled(s, Send(id))
               case ReturningSlot => Enabled(s, ReturnSlot(id))
               case Releasing => Enabled(s, Release(id))
               case Ended => c.sent == 1
               case NoWorker => c.sent == 0
  {
    TraceInv(states, steps, i);
    var s := states[i];
    if s.calls[id].worker == ReturningSlot {
      assert id in SlotHolders(s.calls);
    }
    if s.calls[id].worker == Releasing {
      PermitIsThere(s, id);
    }
  }

  // ---------- What a call answers ----------

  /**
   Which step of a call answers what.  The end of the context is told at each look, even
   when a result is there; a full transport only to a live call that finds eight
   admissions; a bad request after admission; and the result only to a live call.
   */
  lemma AnswersIff(s: System, step: Step, id: nat, answer: Answer)
    requires Inv(s) && Enabled(s, step) && id in s.calls && !s.calls[id].caller.Returned?
    ensures id in Next(s, step).calls
    ensures Next(s, step).calls[id].caller == Returned(answer) <==> Gives(s, step, id, answer)
  {
    assert s.admitted <= 8;
    if s.calls[id].caller == Ready {
      SlotIsFree(s, id);
    }
    hide Inv, Next, Enabled, Gives;
    if step.Check? || step.Recheck? || step.Receive? || step.Abandon? {
      LookStep(s, step, id, answer);
    } else if step.Acquire? || step.Validate? || step.TakeSlot? {
      OwnStep(s, step, id, answer);
    } else {
      NoAnswer(s, step, id, answer);
    }
  }

  predicate Gives(s: System, step: Step, id: nat, answer: Answer)
    requires id in s.calls
  {
    match answer
    case ContextError =>
      s.calls[id].cancelled
      && (step == Check(id) || step == Acquire(id) || step == Recheck(id) || step == Receive(id) || step == Abandon(id))
    case AdmissionFull => !s.calls[id].cancelled && step == Acquire(id) && s.admitted == 8
    case BadRequest => step == Validate(id, false)
    case OperationsFull => false
    case Result => !s.calls[id].cancelled && step == Receive(id)
  }

  lemma OwnStep(s: System, step: Step, id: nat, answer: Answer)
    requires Enabled(s, step) && id in s.calls && !s.calls[id].caller.Returned? && s.admitted <= 8
    requires s.calls[id].caller == Ready ==> s.operations < MAX_OPERATIONS
    requires step.Acquire? || step.Validate? || step.TakeSlot?
    ensures id in Next(s, step).calls
    ensures Next(s, step).calls[id].caller == Returned(answer) <==> Gives(s, step, id, answer)
  {
    if step.id != id {
      assert Next(s, step).calls[id] == s.calls[id];
      hide Next;
    }
  }

  lemma LookStep(s: System, step: Step, id: nat, answer: Answer)
    requires Enabled(s, step) && id in s.calls && !s.calls[id].caller.Returned?
    requires step.Check? || step.Recheck? || step.Receive? || step.Abandon?
    ensures id in Next(s, step).calls
    ensures Next(s, step).calls[id].caller == Returned(answer) <==> Gives(s, step, id, answer)
  {
    if step.id != id {
      assert Next(s, step).calls[id] == s.calls[id];
      hide Next;
    }
  }

  lemma NoAnswer(s: System, step: Step, id: nat, answer: Answer)
    requires Enabled(s, step) && id in s.calls && !s.calls[id].caller.Returned?
    requires !step.Check? && !step.Recheck? && !step.Receive? && !step.Abandon? && !step.Acquire? && !step.Validate? && !step.TakeSlot?
    ensures id in Next(s, step).calls
    ensures Next(s, step).calls[id].caller == Returned(answer) <==> Gives(s, step, id, answer)
  {
    assert Next(s, step).calls[id].caller == s.calls[id].caller;
    hide Next;
  }

  /** The stage after a stage, when nothing stops the call. */
  function StageAfter(pc: CallerPc): CallerPc {
    match pc
    case Entering => Asking
    case Asking => Rechecking
    case Rechecking => Admitted
    case Admitted => Ready
    case Ready => Waiting
    case _ => pc
  }

  /** The step is one that the caller of id makes itself. */
  predicate IsCallers(step: Step, id: nat) {
    step == Check(id) || step == Acquire(id) || step == Recheck(id) || step == Validate(id, true) || step == Validate(id, false)
    || step == TakeSlot(id) || step == Receive(id) || step == Abandon(id)
  }

  /**
   A call goes through its stages in order: a step of its own answers or takes it to the
   next stage, any other step leaves it where it is, and an answer is final.
   */
  lemma CallerMoves(s: System, step: Step, id: nat)
    requires Inv(s) && Enabled(s, step) && id in s.calls && id in Next(s, step).calls
    ensures var was, now := s.calls[id].caller, Next(s, step).calls[id].caller;
            && (was.Returned? ==> now == was)
            && (!IsCallers(step, id) ==> now == was)
            && (IsCallers(step, id) && !now.Returned? ==> now == StageAfter(was) != was)
    ensures Next(s, step).calls[id].cancelled <==> s.calls[id].cancelled || step == Cancel(id)
  {
    hide Inv, HoldsAdmission, HoldsSlot;
  }

  /**
   The worker starts with the slot, computes, sends, returns the slot and the admission, in
   that order and by its own steps; the result is in the buffer from the send to the receive.
   */
  lemma WorkerMoves(s: System, step: Step, id: nat)
    requires Enabled(s, step) && id in s.calls && id in Next(s, step).calls
    ensures var c, d := s.calls[id], Next(s, step).calls[id];
            && d.worker == (if step == TakeSlot(id) && s.operations < 8 then Working
                            else if step == Work(id) then Sending
                            else if step == Send(id) then ReturningSlot
                            else if step == ReturnSlot(id) then Releasing
                            else if step == Release(id) then Ended
                            else c.worker)
            && d.sent == c.sent + (if step == Send(id) then 1 else 0)
            && d.buffered == c.buffered + (if step == Send(id) then 1 else 0) - (if step == Receive(id) then 1 else 0)
  {
    if step.OtherAcquire? || step.OtherRelease? || step.id != id {
      SameCall(s, step, id);
      hide Next, Enabled;
    }
  }

  lemma SameCall(s: System, step: Step, id: nat)
    requires Enabled(s, step) && id in s.calls && (step.OtherAcquire? || step.OtherRelease? || step.id != id)
    ensures id in Next(s, step).calls && Next(s, step).calls[id] == s.calls[id]
  {
  }

  /** A call begins with a live context, asking for nothing, and no other step brings one. */
  lemma CallBegins(s: System, step: Step, id: nat)
    requires Enabled(s, step) && id !in s.calls && id in Next(s, step).calls
    ensures step == Begin(id) && Next(s, step).admitted == s.admitted && Next(s, step).operations == s.operations
    ensures Next(s, step).calls[id] == Call(Entering, NoWorker, false, 0, NotReleased, 0, 0)
  {
  }

  /** A sent result waits for the caller: it can be taken as long as the caller has not left. */
  lemma ResultWaits(s: System, id: nat)
    requires Inv(s) && id in s.calls && s.calls[id].caller == Waiting
    ensures Enabled(s, Receive(id)) <==> s.calls[id].worker in {ReturningSlot, Releasing, Ended}
    ensures Enabled(s, Abandon(id)) <==> s.calls[id].cancelled
  {
    assert CallInv(s.calls[id]);
  }

  /** An admission of another user is taken while there is room and given back while there is one. */
  lemma OthersMove(s: System)
    requires Inv(s)
    ensures Enabled(s, OtherAcquire) <==> s.admitted < 8
    ensures Enabled(s, OtherRelease) <==> s.others > 0
  {
  }
}
