/**
 One live transcription session: opening it, the goroutine that receives, and any
 number of concurrent calls of Close.  The backend slot taken while opening must
 come back exactly once, after the last event.
 */
module LiveSession {
  import opened Basics

  datatype Response = Response(
    delta: string, eou: bool, eob: bool, words: seq<string>,
    speakers: seq<string>, sounds: seq<string>, final: bool)

  /** Which responses the goroutine hands to the caller. */
  predicate Passes(r: Response) {
    r.delta != "" || r.eou || r.eob || r.words != [] || r.final
  }

  function Passing(rs: seq<Response>): seq<Response> {
    if rs == [] then []
    else Passing(rs[..|rs| - 1]) + if Passes(rs[|rs| - 1]) then [rs[|rs| - 1]] else []
  }

  datatype Error = LoadFailed | SlotsFull | StreamFailed | SendFailed | AckFailed | NotReady | CloseSendFailed | ReceiveFailed

  datatype OpenPc = Loading | AskingSlot | OpeningStream | SendingConfig | AwaitingAck | Open | Failed(error: Error)

  /** A failing receive has looked at the stream context, and will record the error or not, before it ends. */
  datatype ReceiverPc = NotStarted | Receiving | Delivering(event: Response) | Failing(record: bool) | Ended

  /** The call of Close that won the once, step by step. */
  datatype ClosePc = Entered | ClosingSend | Draining | ForcedWait | Finishing | Blocked | Back

  datatype Once = Unused | Running(closer: nat) | Done

  datatype System = System(
    opener: OpenPc,
    acquired: bool,            // the slot was granted
    releases: nat,             // calls of the release function
    cancelled: bool,           // the stream context has ended
    receiver: ReceiverPc,
    taken: nat,                // responses received after the ack
    receiveFailed: bool,       // recvErr is set
    sendFailed: bool,          // CloseSend returned an error
    delivered: seq<Response>,
    once: Once,
    closeError: seq<Error>,    // [] for nil
    closers: map<nat, ClosePc>)

  const Init := System(Loading, false, 0, false, NotStarted, 0, false, false, [], Unused, [], map[])

  datatype Step =
    | Load(ok: bool)
    | AskSlot(ok: bool)
    | OpenStream(ok: bool)
    | SendConfig(ok: bool)
    | ReceiveAck(ok: bool, ready: bool)
    | ParentCancelled
    | Receive                      // the next response of the backend
    | ReceiveError(eof: bool)      // the receive fails; the goroutine looks at the stream context
    | ReceiverEnds                 // recvErr is set or not, and recvDone is closed
    | EventHandled                 // onEvent returned
    | CallClose(id: nat)
    | EnterOnce(id: nat)
    | CloseSend(id: nat, ok: bool)
    | Drained(id: nat)             // recvDone is closed
    | Timeout(id: nat)             // the drain timeout passed: cancel and wait on
    | ForcedDrained(id: nat)
    | Finish(id: nat)              // cancel, closeErr, trace, release
    | Unblock(id: nat)

  ghost predicate CloserAt(s: System, id: nat, pc: ClosePc) {
    id in s.closers && s.closers[id] == pc
  }

  ghost predicate Enabled(s: System, responses: seq<Response>, step: Step) {
    match step
    case Load(_) => s.opener == Loading
    case AskSlot(_) => s.opener == AskingSlot
    case OpenStream(_) => s.opener == OpeningStream
    case SendConfig(_) => s.opener == SendingConfig
    case ReceiveAck(_, _) => s.opener == AwaitingAck
    case ParentCancelled => true
    case Receive => s.receiver == Receiving && s.taken < |responses|
    case ReceiveError(_) => s.receiver == Receiving
    case ReceiverEnds => s.receiver.Failing?
    case EventHandled => s.receiver.Delivering?
    case CallClose(id) => s.opener == Open && id !in s.closers
    case EnterOnce(id) => CloserAt(s, id, Entered)
    case CloseSend(id, _) => CloserAt(s, id, ClosingSend)
    case Drained(id) => CloserAt(s, id, Draining) && s.receiver == Ended
    case Timeout(id) => CloserAt(s, id, Draining)
    case ForcedDrained(id) => CloserAt(s, id, ForcedWait) && s.receiver == Ended
    case Finish(id) => CloserAt(s, id, Finishing)
    case Unblock(id) => CloserAt(s, id, Blocked) && s.once == Done
  }

  predicate IsOpening(step: Step) {
    step.Load? || step.AskSlot? || step.OpenStream? || step.SendConfig? || step.ReceiveAck?
  }

  predicate IsStream(step: Step) {
    step.ParentCancelled? || step.Receive? || step.ReceiveError? || step.ReceiverEnds? || step.EventHandled?
  }

  /** Where the opening stands after its step. */
  function OpenerAfter(step: Step): OpenPc
    requires IsOpening(step)
  {
    match step
    case Load(ok) => if ok then AskingSlot else Failed(LoadFailed)
    case AskSlot(ok) => if ok then OpeningStream else Failed(SlotsFull)
    case OpenStream(ok) => if ok then SendingConfig else Failed(StreamFailed)
    case SendConfig(ok) => if ok then AwaitingAck else Failed(SendFailed)
    case ReceiveAck(ok, ready) => if !ok then Failed(AckFailed) else if !ready then Failed(NotReady) else Open
  }

  /** The step fails with the slot taken: the stream context is cancelled and the slot released. */
  predicate GivesBack(step: Step)
    requires IsOpening(step)
  {
    OpenerAfter(step).Failed? && !step.Load? && !step.AskSlot?
  }

  function NextOpening(s: System, step: Step): System
    requires IsOpening(step)
  {
    s.(opener := OpenerAfter(step),
       acquired := s.acquired || step == AskSlot(true),
       receiver := if OpenerAfter(step) == Open then Receiving else s.receiver,
       cancelled := s.cancelled || GivesBack(step),
       releases := s.releases + if GivesBack(step) then 1 else 0)
  }

  function NextStream(s: System, responses: seq<Response>, step: Step): System
    requires IsStream(step) && Enabled(s, responses, step)
  {
    match step
    case ParentCancelled => s.(cancelled := true)
    case Receive =>
      var r := responses[s.taken];
      if Passes(r) then s.(taken := s.taken + 1, receiver := Delivering(r)) else s.(taken := s.taken + 1)
    case ReceiveError(eof) => s.(receiver := Failing(!eof && !s.cancelled))
    case ReceiverEnds => s.(receiver := Ended, receiveFailed := s.receiver.record)
    case EventHandled => s.(receiver := Receiving, delivered := s.delivered + [s.receiver.event])
  }

  /** Where a call of Close stands after its step. */
  function CloserAfter(s: System, step: Step): ClosePc
    requires !IsOpening(step) && !IsStream(step)
  {
    match step
    case CallClose(_) => Entered
    case EnterOnce(_) => if s.once == Unused then ClosingSend else Blocked
    case CloseSend(_, _) => Draining
    case Timeout(_) => ForcedWait
    case Finish(_) => Back
    case Unblock(_) => Back
    case _ => Finishing
  }

  /** The error that Close keeps: that of CloseSend, else that of the receive. */
  function CloseErrorOf(s: System): seq<Error> {
    if s.sendFailed then [CloseSendFailed] else if s.receiveFailed then [ReceiveFailed] else []
  }

  /** The timeout cancels; the last step cancels, keeps the error and releases. */
  function NextClosing(s: System, step: Step): System
    requires !IsOpening(step) && !IsStream(step)
  {
    s.(closers := s.closers[step.id := CloserAfter(s, step)],
       once := if step.Finish? then Done else if step.EnterOnce? && s.once == Unused then Running(step.id) else s.once,
       sendFailed := if step.CloseSend? then !step.ok else s.sendFailed,
       cancelled := s.cancelled || step.Timeout? || step.Finish?,
       closeError := if step.Finish? then CloseErrorOf(s) else s.closeError,
       releases := s.releases + if step.Finish? then 1 else 0)
  }

  function Next(s: System, responses: seq<Response>, step: Step): System
    requires Enabled(s, responses, step)
  {
    if IsOpening(step) then NextOpening(s, step)
    else if IsStream(step) then NextStream(s, responses, step)
    else NextClosing(s, step)
  }

  // ---------- The invariant ----------

  /** Between its first and its last step a call of Close runs the once alone. */
  predicate CloserInv(once: Once, receiver: ReceiverPc, id: nat, pc: ClosePc) {
    match pc
    case Entered => true
    case Blocked => once != Unused
    case Back => once == Done
    case Finishing => once == Running(id) && receiver == Ended
    case _ => once == Running(id)
  }

  ghost predicate ClosersInv(s: System) {
    && (forall id | id in s.closers :: CloserInv(s.once, s.receiver, id, s.closers[id]))
    && (s.closers != map[] || s.once != Unused ==> s.opener == Open)
    && (s.once.Running? ==> s.once.closer in s.closers && s.closers[s.once.closer] in {ClosingSend, Draining, ForcedWait, Finishing})
    && (s.once == Done ==> s.receiver == Ended && s.cancelled)
  }

  predicate SlotInv(s: System) {
    && s.acquired == !(s.opener in {Loading, AskingSlot, Failed(LoadFailed), Failed(SlotsFull)})
    && s.releases == (if s.acquired && (s.opener.Failed? || s.once == Done) then 1 else 0)
    && (s.releases == 1 ==> s.cancelled)
    && (s.receiver == NotStarted <==> s.opener != Open)
  }

  ghost predicate StreamInv(s: System, responses: seq<Response>) {
    && s.taken <= |responses|
    && s.delivered + (if s.receiver.Delivering? then [s.receiver.event] else []) == Passing(responses[..s.taken])
  }

  predicate ErrorInv(s: System) {
    && (s.receiveFailed ==> s.receiver == Ended)
    && (s.once == Done ==> s.closeError == CloseErrorOf(s))
  }

  ghost predicate Inv(s: System, responses: seq<Response>) {
    ClosersInv(s) && SlotInv(s) && StreamInv(s, responses) && ErrorInv(s)
  }

  /** One call of Close moves on while the once stays as it is. */
  lemma CloserMoves(s: System, t: System, id: nat)
    requires ClosersInv(s) && id in s.closers && id in t.closers && t.closers == s.closers[id := t.closers[id]]
    requires t.once == s.once && t.receiver == s.receiver && t.opener == s.opener && (s.cancelled ==> t.cancelled)
    requires CloserInv(t.once, t.receiver, id, t.closers[id])
    requires s.once == Running(id) ==> t.closers[id] in {ClosingSend, Draining, ForcedWait, Finishing}
    ensures ClosersInv(t)
  {
    hide CloserInv;
  }

  lemma OnceStepsKeep(s: System, responses: seq<Response>, step: Step)
    requires Inv(s, responses) && Enabled(s, responses, step) && (step.EnterOnce? || step.Finish?)
    ensures ClosersInv(Next(s, responses, step))
  {
    hide Passing, NextOpening, NextStream;
    var t := Next(s, responses, step);
    assert CloserInv(s.once, s.receiver, step.id, s.closers[step.id]);
    forall id | id in t.closers ensures CloserInv(t.once, t.receiver, id, t.closers[id]) {
      assert id != step.id ==> CloserInv(s.once, s.receiver, id, s.closers[id]);
    }
  }

  lemma CloseStepsKeep(s: System, responses: seq<Response>, step: Step)
    requires Inv(s, responses) && Enabled(s, responses, step)
    requires step.CloseSend? || step.Drained? || step.Timeout? || step.ForcedDrained? || step.Unblock?
    ensures ClosersInv(Next(s, responses, step))
  {
    hide Passing, NextOpening, NextStream;
    assert CloserInv(s.once, s.receiver, step.id, s.closers[step.id]);
    CloserMoves(s, Next(s, responses, step), step.id);
  }

  lemma OtherStepsKeep(s: System, responses: seq<Response>, step: Step)
    requires Inv(s, responses) && Enabled(s, responses, step)
    requires step.Load? || step.AskSlot? || step.OpenStream? || step.SendConfig? || step.ReceiveAck? || step.ParentCancelled?
             || step.Receive? || step.ReceiveError? || step.ReceiverEnds? || step.EventHandled? || step.CallClose?
    ensures ClosersInv(Next(s, responses, step))
  {
    hide Passing;
    var t := Next(s, responses, step);
    forall id | id in t.closers ensures CloserInv(t.once, t.receiver, id, t.closers[id]) {
      assert id in s.closers ==> CloserInv(s.once, s.receiver, id, s.closers[id]);
    }
  }

  lemma ClosersKeep(s: System, responses: seq<Response>, step: Step)
    requires Inv(s, responses) && Enabled(s, responses, step)
    ensures ClosersInv(Next(s, responses, step))
  {
    hide Inv, Enabled, Next, ClosersInv;
    match step
    case EnterOnce(_) => OnceStepsKeep(s, responses, step);
    case Finish(_) => OnceStepsKeep(s, responses, step);
    case CloseSend(_, _) => CloseStepsKeep(s, responses, step);
    case Drained(_) => CloseStepsKeep(s, responses, step);
    case Timeout(_) => CloseStepsKeep(s, responses, step);
    case ForcedDrained(_) => CloseStepsKeep(s, responses, step);
    case Unblock(_) => CloseStepsKeep(s, responses, step);
    case _ => OtherStepsKeep(s, responses, step);
  }

  lemma OpeningKeeps(s: System, responses: seq<Response>, step: Step)
    requires Inv(s, responses) && Enabled(s, responses, step) && IsOpening(step)
    ensures SlotInv(Next(s, responses, step)) && ErrorInv(Next(s, responses, step))
    ensures StreamInv(Next(s, responses, step), responses)
  {
    DoneIsFinal(s, responses, step);
    hide ClosersInv, CloserAt, Passing, Passes, NextStream, NextClosing;
  }

  lemma ReceivingKeeps(s: System, responses: seq<Response>, step: Step)
    requires Inv(s, responses) && Enabled(s, responses, step) && IsStream(step)
    ensures SlotInv(Next(s, responses, step)) && ErrorInv(Next(s, responses, step))
  {
    DoneIsFinal(s, responses, step);
    hide ClosersInv, StreamInv, CloserAt, Passes, NextOpening, NextClosing;
  }

  lemma StreamKeeps(s: System, responses: seq<Response>, step: Step)
    requires Inv(s, responses) && Enabled(s, responses, step) && IsStream(step)
    ensures StreamInv(Next(s, responses, step), responses)
  {
    hide ClosersInv, ErrorInv, SlotInv, CloserAt, NextOpening, NextClosing;
    if step.Receive? {
      ReceiveKeeps(s, responses);
    } else {
      hide Passing, Passes;
    }
  }

  lemma ReceiveKeeps(s: System, responses: seq<Response>)
    requires StreamInv(s, responses) && Enabled(s, responses, Receive)
    ensures StreamInv(Next(s, responses, Receive), responses)
  {
    hide NextOpening, NextClosing;
    assert responses[..s.taken + 1][..s.taken] == responses[..s.taken];
  }

  /** A step of Close changes neither the opening nor the stream; only the last one sets the error and releases. */
  lemma ClosingFrame(s: System, responses: seq<Response>, step: Step)
    requires Enabled(s, responses, step) && !IsOpening(step) && !IsStream(step)
    ensures var t := Next(s, responses, step);
            && t.opener == s.opener && t.acquired == s.acquired && t.receiver == s.receiver && t.taken == s.taken
            && t.delivered == s.delivered && t.receiveFailed == s.receiveFailed && (s.cancelled ==> t.cancelled)
            && (!step.CloseSend? ==> t.sendFailed == s.sendFailed)
            && (if step.Finish? then
                  && t.once == Done && t.cancelled && t.releases == s.releases + 1
                  && t.closeError == CloseErrorOf(s)
                else t.releases == s.releases && t.closeError == s.closeError && (t.once == Done <==> s.once == Done))
  {
    hide NextOpening, NextStream, Enabled;
  }

  lemma ClosingKeeps(s: System, responses: seq<Response>, step: Step)
    requires Inv(s, responses) && Enabled(s, responses, step) && !IsOpening(step) && !IsStream(step)
    ensures SlotInv(Next(s, responses, step)) && ErrorInv(Next(s, responses, step))
    ensures StreamInv(Next(s, responses, step), responses)
  {
    DoneIsFinal(s, responses, step);
    ClosingFrame(s, responses, step);
    hide ClosersInv, Next, Enabled, Passing;
  }

  lemma StepKeeps(s: System, responses: seq<Response>, step: Step)
    requires Inv(s, responses) && Enabled(s, responses, step)
    ensures Inv(Next(s, responses, step), responses)
  {
    ClosersKeep(s, responses, step);
    if IsOpening(step) {
      OpeningKeeps(s, responses, step);
    } else if IsStream(step) {
      ReceivingKeeps(s, responses, step);
      StreamKeeps(s, responses, step);
    } else {
      ClosingKeeps(s, responses, step);
    }
    hide Next, Enabled, ClosersInv, SlotInv, StreamInv, ErrorInv;
  }

  /** The facts about the closers that the rest of the invariant leans on. */
  lemma DoneIsFinal(s: System, responses: seq<Response>, step: Step)
    requires Inv(s, responses) && Enabled(s, responses, step)
    ensures s.once == Done ==> s.opener == Open && s.receiver == Ended && s.cancelled && !step.CloseSend? && !step.Finish?
    ensures step.Finish? ==> s.opener == Open && s.once.Running? && s.receiver == Ended
    ensures s.opener != Open ==> s.once == Unused
  {
    hide Passing;
    if step.CloseSend? || step.Finish? {
      assert CloserInv(s.once, s.receiver, step.id, s.closers[step.id]);
    }
  }

  ghost predicate Trace(states: seq<System>, steps: seq<Step>, responses: seq<Response>) {
    && |states| == |steps| + 1 && states[0] == Init
    && forall i | 0 <= i < |steps| ::
         Enabled(states[i], responses, steps[i]) && states[i + 1] == Next(states[i], responses, steps[i])
  }

  lemma {:induction false} TraceInv(states: seq<System>, steps: seq<Step>, responses: seq<Response>, i: nat)
    requires Trace(states, steps, responses) && i < |states|
    ensures Inv(states[i], responses)
  {
    hide Next, Enabled;
    if i == 0 {
      assert responses[..0] == [];
    } else {
      hide Inv;
      TraceInv(states, steps, responses, i - 1);
      StepKeeps(states[i - 1], responses, steps[i - 1]);
    }
  }

  // ---------- What follows for every run ----------

  /**
   The slot comes back at most once, and exactly once on every path that took it:
   a failed opening, or a Close that has returned, however many calls there were
   and whether or not the drain timed out.
   */
  lemma SlotReleasedOnce(states: seq<System>, steps: seq<Step>, responses: seq<Response>, i: nat)
    requires Trace(states, steps, responses) && i < |states|
    ensures var s := states[i];
            && s.releases <= 1
            && (s.opener.Failed? ==> s.releases == if s.acquired then 1 else 0)
            && (forall id | id in s.closers && s.closers[id] == Back :: s.acquired && s.releases == 1)
            && (s.opener == Open && s.once != Done ==> s.releases == 0)
  {
    TraceInv(states, steps, responses, i);
  }

  /** When the slot is back no goroutine of the session runs: the receiver has ended or never started. */
  lemma ReleaseFollowsReceiver(states: seq<System>, steps: seq<Step>, responses: seq<Response>, i: nat)
    requires Trace(states, steps, responses) && i < |states| && states[i].releases == 1
    ensures states[i].receiver in {NotStarted, Ended} && states[i].cancelled
  {
    hide Passing;
    TraceInv(states, steps, responses, i);
  }

  /** Once any Close has returned, nothing more is delivered and the error of Close does not change. */
  lemma {:induction false} QuietAfterClose(states: seq<System>, steps: seq<Step>, responses: seq<Response>, i: nat, j: nat, id: nat)
    requires Trace(states, steps, responses) && i <= j < |states|
    requires id in states[i].closers && states[i].closers[id] == Back
    ensures states[j].delivered == states[i].delivered && states[j].closeError == states[i].closeError
    ensures states[j].receiver == Ended && states[j].once == Done
    decreases j - i
  {
    hide Next, Enabled, Passing;
    TraceInv(states, steps, responses, i);
    if i < j {
      QuietAfterClose(states, steps, responses, i, j - 1, id);
      TraceInv(states, steps, responses, j - 1);
      DoneIsQuiet(states[j - 1], responses, steps[j - 1]);
    }
  }

  lemma DoneIsQuiet(s: System, responses: seq<Response>, step: Step)
    requires Inv(s, responses) && Enabled(s, responses, step) && s.once == Done
    ensures var t := Next(s, responses, step);
            && t.delivered == s.delivered && t.receiver == s.receiver && t.once == Done && t.closeError == s.closeError
  {
    hide Passing;
  }

  /** What is delivered is the passing responses received, in order; none is repeated or skipped. */
  lemma DeliveredIsPassing(states: seq<System>, steps: seq<Step>, responses: seq<Response>, i: nat)
    requires Trace(states, steps, responses) && i < |states|
    ensures states[i].taken <= |responses|
    ensures !states[i].receiver.Delivering? ==> states[i].delivered == Passing(responses[..states[i].taken])
    ensures states[i].delivered <= Passing(responses[..states[i].taken])
  {
    TraceInv(states, steps, responses, i);
  }

  /**
   The interface promises an event for every response, yet a response that brings
   only speaker segments and sounds is lost: wherever it comes, the events are
   those of the stream without it.
   */
  lemma SpeakersAndSoundsAloneAreLost(before: seq<Response>, speakers: seq<string>, sounds: seq<string>, after: seq<Response>)
    ensures var r := Response("", false, false, [], speakers, sounds, false);
            Passing(before + [r] + after) == Passing(before + after)
  {
    var r := Response("", false, false, [], speakers, sounds, false);
    PassingAppend(before + [r], after);
    PassingAppend(before, [r]);
    PassingAppend(before, after);
    assert Passing([r]) == [];
  }

  /**
   Leaving a response out of a stream leaves the events as they are if and only if it
   carries no delta, no mark, no words and no final result.
   */
  lemma LeftOutIff(before: seq<Response>, r: Response, after: seq<Response>)
    ensures Passing(before + [r] + after) == Passing(before + after)
            <==> r.delta == "" && !r.eou && !r.eob && r.words == [] && !r.final
  {
    PassingAppend(before + [r], after);
    PassingAppend(before, [r]);
    PassingAppend(before, after);
    assert Passing([r]) == if Passes(r) then [r] else [];
    hide Passing;
    assert |Passing(before + [r] + after)| == |Passing(before)| + |Passing([r])| + |Passing(after)|;
    assert |Passing(before + after)| == |Passing(before)| + |Passing(after)|;
    if !Passes(r) {
      assert Passing(before) + [] == Passing(before);
    }
  }

  /** The positions of a list at which an event comes, and the events: in order, none missing, none besides. */
  ghost predicate EventsAt(rs: seq<Response>, events: seq<Response>, at: seq<nat>) {
    && |at| == |events|
    && (forall k | 0 <= k < |at| :: at[k] < |rs| && events[k] == rs[at[k]])
    && (forall j, k | 0 <= j < k < |at| :: at[j] < at[k])
    && forall n | 0 <= n < |rs| ::
         Occurs(at, n) <==> rs[n].delta != "" || rs[n].eou || rs[n].eob || rs[n].words != [] || rs[n].final
  }

  lemma MoreEvents(rs: seq<Response>, events: seq<Response>, at: seq<nat>, r: Response)
    requires EventsAt(rs, events, at)
    ensures if r.delta != "" || r.eou || r.eob || r.words != [] || r.final
            then EventsAt(rs + [r], events + [r], at + [|rs|]) else EventsAt(rs + [r], events, at)
  {
    forall n: nat ensures Occurs(at + [|rs|], n) <==> Occurs(at, n) || n == |rs| {
      OccursAppend(at, |rs|, n);
    }
    assert !Occurs(at, |rs|);
    hide Occurs;
  }

  lemma {:induction false} PassingAt(rs: seq<Response>) returns (at: seq<nat>)
    ensures EventsAt(rs, Passing(rs), at)
  {
    at := [];
    if rs != [] {
      var front, r := rs[..|rs| - 1], rs[|rs| - 1];
      at := PassingAt(front);
      MoreEvents(front, Passing(front), at, r);
      assert rs == front + [r] && Passing(front) + [] == Passing(front);
      at := if Passes(r) then at + [|front|] else at;
      hide EventsAt;
    }
  }

  /**
   Over every run, when nothing is being delivered, the events delivered are exactly the
   responses received so far that carry a delta, a mark, words or the final result, each
   once and in the order they came.
   */
  lemma DeliveredAre(states: seq<System>, steps: seq<Step>, responses: seq<Response>, i: nat) returns (at: seq<nat>)
    requires Trace(states, steps, responses) && i < |states| && !states[i].receiver.Delivering?
    ensures states[i].taken <= |responses| && |at| == |states[i].delivered|
    ensures forall k | 0 <= k < |at| :: at[k] < states[i].taken && states[i].delivered[k] == responses[at[k]]
    ensures forall j, k | 0 <= j < k < |at| :: at[j] < at[k]
    ensures forall n | 0 <= n < states[i].taken ::
              var r := responses[n];
              (exists k | 0 <= k < |at| :: at[k] == n) <==> r.delta != "" || r.eou || r.eob || r.words != [] || r.final
  {
    hide Trace;
    DeliveredIsPassing(states, steps, responses, i);
    var rs := responses[..states[i].taken];
    at := PassingAt(rs);
    hide Passing;
    forall n | 0 <= n < |rs|
      ensures (exists k | 0 <= k < |at| :: at[k] == n) <==>
              rs[n].delta != "" || rs[n].eou || rs[n].eob || rs[n].words != [] || rs[n].final
    {
      assert Occurs(at, n) <==> exists k | 0 <= k < |at| :: at[k] == n;
    }
  }

  /** Every response gives an event if and only if each carries a delta, a mark, words or the final result. */
  lemma {:induction false} AllDeliveredIff(rs: seq<Response>)
    ensures |Passing(rs)| <= |rs|
    ensures Passing(rs) == rs <==>
              forall i | 0 <= i < |rs| :: rs[i].delta != "" || rs[i].eou || rs[i].eob || rs[i].words != [] || rs[i].final
  {
    if rs != [] {
      var front, last := rs[..|rs| - 1], rs[|rs| - 1];
      AllDeliveredIff(front);
      assert rs == front + [last];
      if Passing(rs) == rs {
        assert Passes(last);
        assert Passing(rs)[..|front|] == front;
      }
    }
  }

  lemma {:induction false} PassingAppend(a: seq<Response>, b: seq<Response>)
    ensures Passing(a + b) == Passing(a) + Passing(b)
  {
    if b == [] {
      assert a + b == a;
    } else {
      var front := b[..|b| - 1];
      assert (a + b)[..|a + b| - 1] == a + front;
      PassingAppend(a, front);
    }
  }

  /** A receive error is recorded, or the goroutine has passed the look at the context and will record it. */
  predicate WillRecord(s: System) {
    s.receiveFailed || (s.receiver.Failing? && s.receiver.record)
  }

  /**
   Once the stream context has ended it is settled whether a receive error is recorded:
   it is if and only if the goroutine had passed its look at the context before.
   */
  lemma {:induction false} CancelFixesError(states: seq<System>, steps: seq<Step>, responses: seq<Response>, i: nat, j: nat)
    requires Trace(states, steps, responses) && i <= j < |states| && states[i].cancelled
    ensures states[j].cancelled && WillRecord(states[j]) == WillRecord(states[i])
    ensures states[j].receiver == Ended ==> states[j].receiveFailed == WillRecord(states[i])
    decreases j
  {
    hide Next, Enabled;
    if i < j {
      CancelFixesError(states, steps, responses, i, j - 1);
      TraceInv(states, steps, responses, j - 1);
      CancelledStep(states[j - 1], responses, steps[j - 1]);
    }
  }

  lemma CancelledStep(s: System, responses: seq<Response>, step: Step)
    requires Inv(s, responses) && Enabled(s, responses, step) && s.cancelled
    ensures Next(s, responses, step).cancelled && WillRecord(Next(s, responses, step)) == WillRecord(s)
  {
    hide Passing, Passes, ClosersInv, StreamInv;
    if IsOpening(step) {
      hide NextStream, NextClosing;
    } else if IsStream(step) {
      hide NextOpening, NextClosing;
    } else {
      ClosingFrame(s, responses, step);
      hide Next;
    }
  }

  /**
   What Close returns: the error of CloseSend, else that of the receive.  After a drain
   timeout it returns a receive error if and only if CloseSend succeeded and, when the
   timeout came, the receive had already failed and passed its look at the context.
   */
  lemma TimeoutHidesReceiveError(states: seq<System>, steps: seq<Step>, responses: seq<Response>, i: nat, j: nat, id: nat)
    requires Trace(states, steps, responses) && i < |steps| && i < j < |states| && states[j].once == Done
    ensures states[j].closeError == CloseErrorOf(states[j])
    ensures steps[i] == Timeout(id) ==>
              (states[j].closeError == [ReceiveFailed] <==> !states[j].sendFailed && WillRecord(states[i]))
  {
    hide Passing;
    TraceInv(states, steps, responses, i);
    TraceInv(states, steps, responses, j);
    if steps[i] == Timeout(id) {
      assert Enabled(states[i], responses, steps[i]) && states[i + 1] == Next(states[i], responses, steps[i]);
      CancelFixesError(states, steps, responses, i + 1, j);
    }
  }

  // ---------- The steps of a run tell its outcome ----------

  /** The opening step that fails with the error. */
  predicate FailsWith(step: Step, error: Error) {
    match error
    case LoadFailed => step == Load(false)
    case SlotsFull => step == AskSlot(false)
    case StreamFailed => step == OpenStream(false)
    case SendFailed => step == SendConfig(false)
    case AckFailed => step == ReceiveAck(false, true) || step == ReceiveAck(false, false)
    case NotReady => step == ReceiveAck(true, false)
    case _ => false
  }

  lemma OpeningStep(s: System, responses: seq<Response>, step: Step)
    requires Enabled(s, responses, step)
    ensures var t := Next(s, responses, step);
            && (t.opener == Open <==> s.opener == Open || step == ReceiveAck(true, true))
            && forall e :: t.opener == Failed(e) <==> s.opener == Failed(e) || FailsWith(step, e)
  {
    if IsOpening(step) {
      OpeningOutcome(s, responses, step);
    } else if IsStream(step) {
      StreamFrame(s, responses, step);
    } else {
      ClosingFrame(s, responses, step);
    }
    hide Next, NextOpening, Enabled;
  }

  lemma OpeningOutcome(s: System, responses: seq<Response>, step: Step)
    requires IsOpening(step) && Enabled(s, responses, step)
    ensures !s.opener.Failed? && s.opener != Open
    ensures NextOpening(s, step).opener == Open <==> step == ReceiveAck(true, true)
    ensures forall e :: NextOpening(s, step).opener == Failed(e) <==> FailsWith(step, e)
  {
    hide Next, CloserAt;
  }

  lemma StreamFrame(s: System, responses: seq<Response>, step: Step)
    requires Enabled(s, responses, step) && IsStream(step)
    ensures var t := Next(s, responses, step);
            && t.opener == s.opener && t.sendFailed == s.sendFailed && t.once == s.once && t.closers == s.closers
            && (t.cancelled <==> s.cancelled || step == ParentCancelled)
  {
    hide Passes, NextOpening, NextClosing, CloserAt;
  }

  /** The call of Close that won the once has not closed the sending side yet. */
  ghost predicate NotYetSent(s: System) {
    s.once == Unused || (s.once.Running? && s.once.closer in s.closers && s.closers[s.once.closer] == ClosingSend)
  }

  lemma SendStep(s: System, responses: seq<Response>, step: Step)
    requires Inv(s, responses) && Enabled(s, responses, step)
    ensures Next(s, responses, step).sendFailed == if step.CloseSend? then !step.ok else s.sendFailed
    ensures step.CloseSend? ==> NotYetSent(s)
    ensures NotYetSent(Next(s, responses, step)) ==> !step.CloseSend? && NotYetSent(s)
  {
    if IsStream(step) {
      StreamFrame(s, responses, step);
      hide Next, Inv;
    } else if IsOpening(step) {
      hide Inv, NextStream, NextClosing, CloserAt;
    } else {
      ClosingSends(s, responses, step);
      hide Inv, NextStream, NextOpening, NextClosing, CloserAt, NotYetSent;
    }
  }

  lemma ClosingSends(s: System, responses: seq<Response>, step: Step)
    requires Inv(s, responses) && Enabled(s, responses, step) && !IsOpening(step) && !IsStream(step)
    ensures NextClosing(s, step).sendFailed == if step.CloseSend? then !step.ok else s.sendFailed
    ensures step.CloseSend? ==> NotYetSent(s)
    ensures NotYetSent(NextClosing(s, step)) ==> !step.CloseSend? && NotYetSent(s)
  {
    hide NextStream, NextOpening, SlotInv, StreamInv, ErrorInv;
    if !step.CallClose? {
      assert CloserInv(s.once, s.receiver, step.id, s.closers[step.id]);
    }
  }

  lemma ReceiveStep(s: System, responses: seq<Response>, step: Step)
    requires Inv(s, responses) && Enabled(s, responses, step)
    ensures WillRecord(Next(s, responses, step)) <==> WillRecord(s) || (step == ReceiveError(false) && !s.cancelled)
    ensures step.ReceiveError? ==> !WillRecord(s)
  {
    if IsOpening(step) {
      hide ClosersInv, StreamInv, NextStream, NextClosing, CloserAt;
    } else if IsStream(step) {
      hide ClosersInv, StreamInv, SlotInv, NextOpening, NextClosing, CloserAt, Passes;
    } else {
      ClosingFrame(s, responses, step);
      hide Inv, Next;
    }
  }

  /** What ends the stream context: the parent, a failed opening that holds the slot, the drain timeout, the end of Close. */
  lemma CancelStep(s: System, responses: seq<Response>, step: Step)
    requires Enabled(s, responses, step)
    ensures Enabled(s, responses, ParentCancelled)
    ensures Next(s, responses, step).cancelled <==>
              s.cancelled || step.ParentCancelled? || step.Timeout? || step.Finish?
              || step == OpenStream(false) || step == SendConfig(false) || (step.ReceiveAck? && !(step.ok && step.ready))
  {
    if IsStream(step) {
      StreamFrame(s, responses, step);
      hide Next;
    } else {
      hide NextStream, CloserAt;
    }
  }

  /**
   In every run: the session is open if and only if every step of its opening succeeded, a
   failed one names the step that failed, CloseSend failed if and only if its step did,
   and a receive error is recorded if and only if a receive failed, not at the end of the
   stream, before the stream context ended.
   */
  lemma {:induction false} StepsTell(states: seq<System>, steps: seq<Step>, responses: seq<Response>, i: nat)
    requires Trace(states, steps, responses) && i < |states|
    ensures states[i].opener == Open <==> exists k | 0 <= k < i :: steps[k] == ReceiveAck(true, true)
    ensures forall e :: states[i].opener == Failed(e) <==> exists k | 0 <= k < i :: FailsWith(steps[k], e)
    ensures states[i].sendFailed <==> exists k | 0 <= k < i :: steps[k].CloseSend? && !steps[k].ok
    ensures NotYetSent(states[i]) ==> !states[i].sendFailed
    ensures WillRecord(states[i]) <==> exists k | 0 <= k < i :: steps[k] == ReceiveError(false) && !states[k].cancelled
  {
    hide Next, Enabled, Inv, NotYetSent, WillRecord, FailsWith;
    if i == 0 {
      BeforeAnything();
    } else {
      StepsTell(states, steps, responses, i - 1);
      TraceInv(states, steps, responses, i - 1);
      var s, step := states[i - 1], steps[i - 1];
      OpeningStep(s, responses, step);
      SendStep(s, responses, step);
      ReceiveStep(s, responses, step);
    }
  }

  lemma BeforeAnything()
    ensures !WillRecord(Init) && !Init.sendFailed && Init.opener != Open && forall e :: Init.opener != Failed(e)
  {
  }

  /**
   What every call of Close returns, by the steps of the run: the error of CloseSend if
   that failed; else that of a receive that failed before the stream context ended; else
   none.
   */
  lemma CloseReturns(states: seq<System>, steps: seq<Step>, responses: seq<Response>, i: nat)
    requires Trace(states, steps, responses) && i < |states| && states[i].once == Done
    ensures states[i].closeError ==
            if exists k | 0 <= k < i :: steps[k].CloseSend? && !steps[k].ok then [CloseSendFailed]
            else if exists k | 0 <= k < i :: steps[k] == ReceiveError(false) && !states[k].cancelled then [ReceiveFailed]
            else []
  {
    hide Trace, Passing;
    TraceInv(states, steps, responses, i);
    StepsTell(states, steps, responses, i);
  }

  lemma Extend(states: seq<System>, steps: seq<Step>, responses: seq<Response>, step: Step, t: System)
    requires Trace(states, steps, responses) && Enabled(states[|steps|], responses, step)
    requires t == Next(states[|steps|], responses, step)
    ensures Trace(states + [t], steps + [step], responses)
  {
    hide Next, Enabled;
  }

  /** An open session that nothing was received in. */
  const Opened := Init.(opener := Open, acquired := true, receiver := Receiving)

  lemma OpenRun() returns (states: seq<System>, steps: seq<Step>)
    ensures Trace(states, steps, []) && states[|steps|] == Opened
  {
    var s1 := Init.(opener := AskingSlot);
    var s2 := Init.(opener := OpeningStream, acquired := true);
    var s3, s4 := s2.(opener := SendingConfig), s2.(opener := AwaitingAck);
    states, steps := [Init], [];
    Extend(states, steps, [], Load(true), s1);
    Extend([Init] + [s1], [] + [Load(true)], [], AskSlot(true), s2);
    states, steps := [Init] + [s1] + [s2], [] + [Load(true)] + [AskSlot(true)];
    Extend(states, steps, [], OpenStream(true), s3);
    Extend(states + [s3], steps + [OpenStream(true)], [], SendConfig(true), s4);
    Extend(states + [s3] + [s4], steps + [OpenStream(true)] + [SendConfig(true)], [], ReceiveAck(true, true), Opened);
    states, steps := states + [s3] + [s4] + [Opened], steps + [OpenStream(true)] + [SendConfig(true)] + [ReceiveAck(true, true)];
  }

  /** The receive fails while Close drains, and the timeout comes before the goroutine has ended. */
  lemma FailingRun() returns (states: seq<System>, steps: seq<Step>)
    ensures Trace(states, steps, [])
    ensures states[|steps|] == Opened.(once := Running(0), closers := map[0 := Draining], receiver := Failing(true))
  {
    hide Trace;
    states, steps := OpenRun();
    var s1 := Opened.(closers := map[0 := Entered]);
    var s2 := Opened.(closers := map[0 := ClosingSend], once := Running(0));
    var s3 := s2.(closers := map[0 := Draining]);
    TraceSize(states, steps, []);
    Extend(states, steps, [], CallClose(0), s1);
    Extend(states + [s1], steps + [CallClose(0)], [], EnterOnce(0), s2);
    states, steps := states + [s1] + [s2], steps + [CallClose(0)] + [EnterOnce(0)];
    Extend(states, steps, [], CloseSend(0, true), s3);
    Extend(states + [s3], steps + [CloseSend(0, true)], [], ReceiveError(false), s3.(receiver := Failing(true)));
    states := states + [s3] + [s3.(receiver := Failing(true))];
    steps := steps + [CloseSend(0, true)] + [ReceiveError(false)];
  }

  lemma TraceSize(states: seq<System>, steps: seq<Step>, responses: seq<Response>)
    requires Trace(states, steps, responses)
    ensures |states| == |steps| + 1
  {
  }

  /**
   A timeout does not always hide the error: the receive fails, the goroutine passes its look
   at the context, the drain times out, and Close returns the receive error all the same.
   */
  lemma ErrorAfterTimeout() returns (states: seq<System>, steps: seq<Step>, i: nat)
    ensures Trace(states, steps, []) && i < |steps| && steps[i] == Timeout(0) && states[i].receiver != Ended
    ensures states[|steps|].once == Done && states[|steps|].closeError == [ReceiveFailed]
  {
    hide Trace;
    states, steps := FailingRun();
    TraceSize(states, steps, []);
    i := |steps|;
    var s := states[|steps|];
    var s1 := s.(closers := map[0 := ForcedWait], cancelled := true);
    var s2 := s1.(receiver := Ended, receiveFailed := true);
    var s3 := s2.(closers := map[0 := Finishing]);
    var s4 := s2.(closers := map[0 := Back], once := Done, closeError := [ReceiveFailed], releases := 1);
    Extend(states, steps, [], Timeout(0), s1);
    Extend(states + [s1], steps + [Timeout(0)], [], ReceiverEnds, s2);
    var mid, done := states + [s1] + [s2], steps + [Timeout(0)] + [ReceiverEnds];
    Extend(mid, done, [], ForcedDrained(0), s3);
    Extend(mid + [s3], done + [ForcedDrained(0)], [], Finish(0), s4);
    states, steps := mid + [s3] + [s4], done + [ForcedDrained(0)] + [Finish(0)];
  }

  // ---------- Close returns ----------

  /** What the receiver still has to do, counting every response that may yet come. */
  function ReceiverLeft(s: System, responses: seq<Response>): nat {
    var n := if s.taken <= |responses| then |responses| - s.taken else 0;
    match s.receiver
    case Receiving => 2 * n + 2
    case Delivering(_) => 2 * n + 3
    case Failing(_) => 1
    case _ => 0
  }

  function Rank(pc: ClosePc): nat {
    match pc
    case Entered => 6
    case ClosingSend => 4
    case Draining => 3
    case ForcedWait => 2
    case Finishing => 1
    case Blocked => 1
    case Back => 0
  }

  function OnceLeft(s: System): nat {
    match s.once
    case Unused => 5
    case Running(id) => if id in s.closers then Rank(s.closers[id]) else 0
    case Done => 0
  }

  /** The steps that may still come before this call of Close returns. */
  function Remaining(s: System, responses: seq<Response>, id: nat): nat
    requires id in s.closers
  {
    Rank(s.closers[id]) + OnceLeft(s) + ReceiverLeft(s, responses)
  }

  /** A step that brings the winner of the once nearer; after a timeout the cancelled receive ends. */
  function WinnerStep(s: System, id: nat): Step
    requires id in s.closers
  {
    match s.closers[id]
    case ClosingSend => CloseSend(id, true)
    case Draining => Timeout(id)
    case ForcedWait =>
      (match s.receiver
       case Ended => ForcedDrained(id)
       case Failing(_) => ReceiverEnds
       case Delivering(_) => EventHandled
       case _ => ReceiveError(false))
    case _ => Finish(id)
  }

  function HelpfulStep(s: System, id: nat): Step
    requires id in s.closers
  {
    match s.closers[id]
    case Entered => EnterOnce(id)
    case Blocked => if s.once.Running? && s.once.closer in s.closers then WinnerStep(s, s.once.closer) else Unblock(id)
    case _ => WinnerStep(s, id)
  }

  /** The step of a call of Close brings that call nearer, and the once too. */
  lemma OwnStepNearer(s: System, responses: seq<Response>, step: Step)
    requires Inv(s, responses) && Enabled(s, responses, step) && !IsOpening(step) && !IsStream(step) && !step.CallClose?
    ensures Rank(CloserAfter(s, step)) < Rank(s.closers[step.id])
    ensures step.CloseSend? || step.Drained? || step.Timeout? || step.ForcedDrained? || step.Finish? ==> s.once == Running(step.id)
    ensures step.Unblock? ==> s.once == Done
    ensures step.EnterOnce? ==> s.once != Running(step.id)
  {
    hide Passing, SlotInv, StreamInv, ErrorInv, Next;
    assert CloserInv(s.once, s.receiver, step.id, s.closers[step.id]);
  }

  /** What a closing step does to what is left of the once. */
  lemma OnceNearer(s: System, responses: seq<Response>, step: Step)
    requires Inv(s, responses) && Enabled(s, responses, step) && !IsOpening(step) && !IsStream(step)
    ensures OnceLeft(NextClosing(s, step)) <= OnceLeft(s)
    ensures s.once == Running(step.id) && !step.CallClose? ==> OnceLeft(NextClosing(s, step)) < OnceLeft(s)
    ensures ReceiverLeft(NextClosing(s, step), responses) == ReceiverLeft(s, responses)
  {
    if !step.CallClose? {
      OwnStepNearer(s, responses, step);
    }
    hide Inv, Enabled, CloserAfter;
    RunningIsThere(s, responses);
    EnteredRank(s, step);
  }

  lemma RunningIsThere(s: System, responses: seq<Response>)
    requires Inv(s, responses)
    ensures s.once.Running? ==> s.once.closer in s.closers
  {
    hide Passing;
  }

  lemma EnteredRank(s: System, step: Step)
    requires !IsOpening(step) && !IsStream(step)
    ensures step.EnterOnce? && s.once == Unused ==> Rank(CloserAfter(s, step)) == 4
    ensures step.Finish? ==> Rank(CloserAfter(s, step)) == 0
    ensures step.CallClose? ==> CloserAfter(s, step) == Entered
  {
  }

  /** The winner's step is enabled and leaves less to do; the other calls stay where they are. */
  lemma WinnerMoves(s: System, responses: seq<Response>, id: nat)
    requires Inv(s, responses) && s.once == Running(id)
    ensures id in s.closers && Enabled(s, responses, WinnerStep(s, id))
    ensures var t := Next(s, responses, WinnerStep(s, id));
            && OnceLeft(t) + ReceiverLeft(t, responses) < OnceLeft(s) + ReceiverLeft(s, responses)
            && id in t.closers && Rank(t.closers[id]) <= Rank(s.closers[id])
            && (forall k | k in s.closers && k != id :: k in t.closers && t.closers[k] == s.closers[k])
  {
    WinnerEnabled(s, responses, id);
    hide Inv, Enabled, Rank, CloserAfter;
    if s.closers[id] == ForcedWait && s.receiver != Ended {
      hide NextClosing, NextOpening, NextStream;
      Started(s, responses);
      ReceiverNearer(s, responses, WinnerStep(s, id));
    } else {
      hide NextStream, NextOpening;
      var step := WinnerStep(s, id);
      OwnStepNearer(s, responses, step);
      OnceNearer(s, responses, step);
    }
  }

  lemma WinnerEnabled(s: System, responses: seq<Response>, id: nat)
    requires Inv(s, responses) && s.once == Running(id)
    ensures id in s.closers && Enabled(s, responses, WinnerStep(s, id))
  {
    hide Passing, Next, StreamInv, ErrorInv;
    assert CloserInv(s.once, s.receiver, id, s.closers[id]);
    Started(s, responses);
  }

  /** Every step of the receiver leaves it less to do, and only its own steps do. */
  lemma ReceiverNearer(s: System, responses: seq<Response>, step: Step)
    requires Enabled(s, responses, step) && IsStream(step) && s.taken <= |responses|
    ensures var t := NextStream(s, responses, step);
            && t.closers == s.closers && t.once == s.once
            && (if step.ParentCancelled? then ReceiverLeft(t, responses) == ReceiverLeft(s, responses)
                else ReceiverLeft(t, responses) < ReceiverLeft(s, responses))
  {
    if step.Receive? {
      TakingNearer(s, responses);
    } else {
      hide Passes, Next, CloserAt;
    }
  }

  lemma TakingNearer(s: System, responses: seq<Response>)
    requires s.receiver == Receiving && s.taken < |responses|
    ensures var t := NextStream(s, responses, Receive);
            t.closers == s.closers && t.once == s.once && ReceiverLeft(t, responses) < ReceiverLeft(s, responses)
  {
    hide Passes;
  }

  lemma Started(s: System, responses: seq<Response>)
    requires Inv(s, responses) && s.once != Unused
    ensures s.receiver != NotStarted && s.taken <= |responses|
  {
    hide Passing;
  }

  /**
   A call of Close that has not returned is never stuck: some step is enabled that brings
   it nearer, one of its own, of the call that won the once, or the end of the receive.
   */
  lemma CloseNeverStuck(s: System, responses: seq<Response>, id: nat)
    requires Inv(s, responses) && id in s.closers && s.closers[id] != Back
    ensures Enabled(s, responses, HelpfulStep(s, id))
    ensures id in Next(s, responses, HelpfulStep(s, id)).closers
    ensures Remaining(Next(s, responses, HelpfulStep(s, id)), responses, id) < Remaining(s, responses, id)
  {
    hide Passing, Passes, SlotInv, StreamInv, ErrorInv, NextOpening, NextStream;
    assert CloserInv(s.once, s.receiver, id, s.closers[id]);
    if s.once.Running? && s.closers[id] != Entered {
      hide NextClosing, WinnerStep;
      WinnerMoves(s, responses, s.once.closer);
    }
  }

  /** No step of anyone takes it further away. */
  lemma NothingDelaysClose(s: System, responses: seq<Response>, id: nat, step: Step)
    requires Inv(s, responses) && id in s.closers && Enabled(s, responses, step)
    ensures id in Next(s, responses, step).closers
    ensures Remaining(Next(s, responses, step), responses, id) <= Remaining(s, responses, id)
  {
    hide Rank, OnceLeft, ReceiverLeft, NextOpening, NextStream, CloserAfter;
    OpenIsOpen(s, responses, id, step);
    if IsStream(step) {
      ReceiverNearer(s, responses, step);
      SameOnce(s, NextStream(s, responses, step));
    } else {
      OnceNearer(s, responses, step);
      if !step.CallClose? {
        OwnStepNearer(s, responses, step);
      }
    }
  }

  lemma SameOnce(s: System, t: System)
    requires t.closers == s.closers && t.once == s.once
    ensures OnceLeft(t) == OnceLeft(s)
  {
  }

  lemma OpenIsOpen(s: System, responses: seq<Response>, id: nat, step: Step)
    requires Inv(s, responses) && id in s.closers && Enabled(s, responses, step)
    ensures !IsOpening(step) && s.taken <= |responses|
  {
    hide Passing, Next;
  }
}
