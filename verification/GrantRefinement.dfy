/**
 The loops of the program inside the interleaved system: a call, with the calls of
 others between its reads and writes, is a sequence of enabled steps of that system,
 so what holds of every interleaving holds of it.
 */
module GrantRefinement {
  import opened Basics
  import opened GrantDocument
  import opened GrantOperations
  import opened GrantPending
  import opened GrantProvenance
  import opened GrantStore
  import opened GrantConcurrency
  import opened GrantTransactions

  /** The steps lead from s to t, each enabled where it is taken. */
  ghost predicate Leads(s: System, steps: seq<Step>, t: System)
    decreases |steps|
  {
    if steps == [] then s == t else Enabled(s, steps[0]) && Leads(Next(s, steps[0]), steps[1..], t)
  }

  lemma LeadsOne(s: System, step: Step)
    requires Enabled(s, step)
    ensures Leads(s, [step], Next(s, step))
  {
    hide Next, Enabled;
    assert [step][1..] == [];
  }

  lemma {:induction false} LeadsOn(s: System, a: seq<Step>, t: System, b: seq<Step>, u: System)
    requires Leads(s, a, t) && Leads(t, b, u)
    ensures Leads(s, a + b, u)
    decreases |a|
  {
    hide Next, Enabled;
    if a == [] {
      assert a + b == b;
    } else {
      LeadsOn(Next(s, a[0]), a[1..], t, b, u);
      assert (a + b)[1..] == a[1..] + b;
    }
  }

  lemma LeadsThen(s: System, a: seq<Step>, t: System, step: Step)
    requires Leads(s, a, t) && Enabled(t, step)
    ensures Leads(s, a + [step], Next(t, step))
  {
    hide Next, Enabled, Leads;
    LeadsOne(t, step);
    LeadsOn(s, a, t, [step], Next(t, step));
  }

  /** The callers of s are in t as they were. */
  ghost predicate Untouched(s: System, t: System) {
    forall id | id in s.callers :: id in t.callers && t.callers[id] == s.callers[id]
  }

  lemma {:induction false} Above(ids: set<nat>) returns (n: nat)
    ensures forall id | id in ids :: id < n
    decreases |ids|
  {
    if ids == {} {
      n := 0;
    } else {
      var x :| x in ids;
      var m := Above(ids - {x});
      n := if m <= x then x + 1 else m;
      forall id | id in ids ensures id < n {
        assert id == x || id in ids - {x};
      }
    }
  }

  // ---------- The call of a rival ----------

  /** A rival's call is the steps of a new caller: it begins, reads and, if it has something to write, writes. */
  lemma RivalIsSteps(s: System, r: Rival) returns (steps: seq<Step>, t: System)
    requires NamesItsOperation(r.call)
    ensures Leads(s, steps, t) && Untouched(s, t) && t.store == RunRival(s.store, r)
  {
    hide Plan, Update, Key, Leads;
    var id := Above(s.callers.Keys);
    var begun := Next(s, Begin(id, r.call));
    var read := Next(begun, Read(id, r.now, false));
    LeadsOne(s, Begin(id, r.call));
    LeadsThen(s, [Begin(id, r.call)], begun, Read(id, r.now, false));
    steps, t := [Begin(id, r.call)] + [Read(id, r.now, false)], read;
    if read.callers[id].pc.Writing? {
      LeadsThen(s, steps, read, Cas(id, r.env));
      steps, t := steps + [Cas(id, r.env)], Next(read, Cas(id, r.env));
    }
  }

  ghost predicate RivalsNamed(rivals: seq<Rival>) {
    forall i | 0 <= i < |rivals| :: NamesItsOperation(rivals[i].call)
  }

  lemma {:induction false} RivalsAreSteps(s: System, rivals: seq<Rival>) returns (steps: seq<Step>, t: System)
    requires RivalsNamed(rivals)
    ensures Leads(s, steps, t) && Untouched(s, t) && t.store == RunRivals(s.store, rivals)
  {
    hide RunRival, Next, Enabled;
    if rivals == [] {
      steps, t := [], s;
    } else {
      var n := |rivals| - 1;
      var front, mid := RivalsAreSteps(s, rivals[..n]);
      var last;
      last, t := RivalIsSteps(mid, rivals[n]);
      LeadsOn(s, front, mid, last, t);
      steps := front + last;
    }
  }

  // ---------- A pass of the loop ----------

  /** Where a pass of the loop leaves the caller. */
  predicate Corresponds(pc: Pc, outcome: Attempted, attempt: nat) {
    match outcome
    case Again => pc == Ready(attempt + 1)
    case Finished(reply) => pc.Returned? && Tells(pc.result, reply)
  }

  predicate Tells(result: CallResult, reply: Reply) {
    if reply.Failure? then result == CallResult.Error(reply.error) else reply == Ok && !result.Error?
  }

  /** A pass of the loop is the read step of the caller, the steps of its rivals, and its write step. */
  lemma PassIsSteps(s: System, id: nat, a: Attempt) returns (steps: seq<Step>, t: System)
    requires id in s.callers && s.callers[id].pc.Ready? && s.callers[id].pc.attempt < MAX_ATTEMPTS && RivalsNamed(a.rivals)
    ensures Leads(s, steps, t) && id in t.callers && t.callers[id].call == s.callers[id].call
    ensures t.store == RunAttempt(s.store, s.callers[id].call, a).0
    ensures Corresponds(t.callers[id].pc, RunAttempt(s.store, s.callers[id].call, a).1, s.callers[id].pc.attempt)
  {
    hide Plan, Update, RunRivals, Key, Leads;
    var read := Next(s, Read(id, a.now, a.readCancelled));
    LeadsOne(s, Read(id, a.now, a.readCancelled));
    steps, t := [Read(id, a.now, a.readCancelled)], read;
    if read.callers[id].pc.Writing? {
      var others, mid := RivalsAreSteps(read, a.rivals);
      LeadsOn(s, steps, read, others, mid);
      LeadsThen(s, steps + others, mid, Cas(id, a.env));
      steps, t := steps + others + [Cas(id, a.env)], Next(mid, Cas(id, a.env));
    }
  }

  ghost predicate AttemptsNamed(attempts: seq<Attempt>) {
    forall i | 0 <= i < |attempts| :: RivalsNamed(attempts[i].rivals)
  }

  lemma {:induction false} LoopIsSteps(s: System, id: nat, attempts: seq<Attempt>) returns (steps: seq<Step>, t: System)
    requires id in s.callers && |attempts| <= MAX_ATTEMPTS && s.callers[id].pc == Ready(MAX_ATTEMPTS - |attempts|)
    requires AttemptsNamed(attempts)
    ensures Leads(s, steps, t) && id in t.callers && t.callers[id].call == s.callers[id].call
    ensures t.store == RunCall(s.store, s.callers[id].call, attempts).0
    ensures t.callers[id].pc.Returned? && Tells(t.callers[id].pc.result, RunCall(s.store, s.callers[id].call, attempts).1)
    decreases |attempts|
  {
    hide RunAttempt, Leads;
    if attempts == [] {
      LeadsOne(s, GiveUp(id));
      steps, t := [GiveUp(id)], Next(s, GiveUp(id));
    } else {
      hide Next, Enabled;
      assert RivalsNamed(attempts[0].rivals);
      steps, t := PassIsSteps(s, id, attempts[0]);
      if t.callers[id].pc.Ready? {
        var mid, first := t, steps;
        var rest;
        rest, t := LoopIsSteps(mid, id, attempts[1..]);
        LeadsOn(s, first, mid, rest, t);
        steps := first + rest;
      }
    }
  }

  /** A whole call of the program is a sequence of steps of the system, with the same store and reply. */
  lemma CallIsSteps(s: System, c: Call, attempts: seq<Attempt>) returns (steps: seq<Step>, t: System, id: nat)
    requires NamesItsOperation(c) && |attempts| == MAX_ATTEMPTS && AttemptsNamed(attempts)
    ensures Leads(s, steps, t) && id !in s.callers && id in t.callers && t.callers[id].call == c
    ensures t.store == RunCall(s.store, c, attempts).0
    ensures t.callers[id].pc.Returned? && Tells(t.callers[id].pc.result, RunCall(s.store, c, attempts).1)
  {
    hide RunCall, Leads;
    id := Above(s.callers.Keys);
    var begun := Next(s, Begin(id, c));
    LeadsOne(s, Begin(id, c));
    var rest;
    rest, t := LoopIsSteps(begun, id, attempts);
    LeadsOn(s, [Begin(id, c)], begun, rest, t);
    steps := [Begin(id, c)] + rest;
  }

  // ---------- What every interleaving promises, for the loops ----------

  lemma {:induction false} TraceGoesOn(states: seq<System>, steps: seq<Step>, more: seq<Step>, t: System) returns (all: seq<System>)
    requires Trace(states, steps) && Leads(states[|steps|], more, t)
    ensures Trace(all, steps + more) && all[|all| - 1] == t && states <= all
    decreases |more|
  {
    hide Next, Enabled;
    if more == [] {
      all := states;
      assert steps + more == steps;
    } else {
      var next := Next(states[|steps|], more[0]);
      assert Trace(states + [next], steps + [more[0]]);
      all := TraceGoesOn(states + [next], steps + [more[0]], more[1..], t);
      assert steps + [more[0]] + more[1..] == steps + more;
    }
  }

  lemma {:induction false} CommitsStay(s: System, steps: seq<Step>, t: System)
    requires Leads(s, steps, t)
    ensures s.run <= t.run && s.owners <= t.owners
    decreases |steps|
  {
    if steps != [] {
      OneStepCommits(s, steps[0]);
      hide Next, Enabled;
      CommitsStay(Next(s, steps[0]), steps[1..], t);
    }
  }

  lemma OneStepCommits(s: System, step: Step)
    requires Enabled(s, step)
    ensures s.run <= Next(s, step).run && s.owners <= Next(s, step).owners
  {
    hide CasUpdate, ReadPc, CasPc;
  }

  /**
   The loops are linearizable. After any run of the system, a whole call, with any
   calls of others between its reads and writes, continues that run: the document is
   still the last of a sequential run of whole transactions that extends the one
   before, and a call that fails has left nothing, unless its write is in doubt.
   */
  lemma CallsAreLinearizable(states: seq<System>, steps: seq<Step>, c: Call, attempts: seq<Attempt>)
    returns (all: seq<System>, more: seq<Step>, id: nat)
    requires Trace(states, steps) && NamesItsOperation(c) && |attempts| == MAX_ATTEMPTS && AttemptsNamed(attempts)
    ensures Trace(all, steps + more) && states <= all
    ensures var s, t, (store, reply) := states[|steps|], all[|all| - 1], RunCall(states[|steps|].store, c, attempts);
            && t.store == store && id !in s.callers && id in t.callers && t.callers[id].call == c
            && Sequential(Empty, t.run) && Last(Empty, t.run) == store.doc.snapshot && s.run <= t.run
            && Sequential(Empty, Written(t)) && Last(Empty, Written(t)) == store.disk.snapshot
            && Writes(t.owners, id) <= 1
            && (reply != Ok && reply != Failure(CallError.Store(Uncertain)) ==> Writes(t.owners, id) == 0)
  {
    hide RunCall, Trace, Leads, Sequential, Last, Writes;
    var s, _ := LastState(states, steps);
    var t;
    more, t, id := CallIsSteps(s, c, attempts);
    all := TraceGoesOn(states, steps, more, t);
    CommitsStay(s, more, t);
    var _, _ := LastState(all, steps + more);
    DiskIsSequential(all, steps + more);
    ResultTellsTrace(all, steps + more, id);
  }

  lemma LastState(states: seq<System>, steps: seq<Step>) returns (s: System, n: nat)
    requires Trace(states, steps)
    ensures |states| == |steps| + 1 && n == |steps| && s == states[n]
  {
    n := |steps|;
    s := states[n];
  }

  /** The store is one that some run of the system leaves. */
  ghost predicate Reachable(st: State) {
    exists states: seq<System>, steps: seq<Step> :: Trace(states, steps) && states[|steps|].store == st
  }

  /** A new store is reachable, and every call of the program keeps it so. */
  lemma CallsStayReachable(st: State, c: Call, attempts: seq<Attempt>)
    requires NamesItsOperation(c) && |attempts| == MAX_ATTEMPTS && AttemptsNamed(attempts)
    ensures Reachable(StoreState(EmptyDocument, EmptyDocument, false, false))
    ensures Reachable(st) ==> Reachable(RunCall(st, c, attempts).0)
  {
    hide RunCall, Sequential, Last, Writes;
    var none: seq<Step> := [];
    assert Trace([Init], none) && [Init][|none|].store == Init.store;
    if Reachable(st) {
      var states: seq<System>, steps: seq<Step> :| Trace(states, steps) && states[|steps|].store == st;
      var all, more, _ := CallsAreLinearizable(states, steps, c, attempts);
      assert Trace(all, steps + more) && all[|steps + more|].store == RunCall(st, c, attempts).0;
    }
  }

  // ---------- A write in doubt happens ----------

  const Doubtful := Env(false, true, InDoubt)

  const FirstStage := Stage(Ask("A", "1"))
  const FirstPatch := Patch(map["a" := Some(Asked("A", "1"))], map[])

  /** The first Stage of a new store has read and is about to write. */
  const Begun := Init.(callers := map[0 := Caller(FirstStage, Ready(0), 0)])
  const AboutToWrite := Init.(callers := map[0 := Caller(FirstStage, Writing(0, Empty, "", FirstPatch), 0)])

  lemma FirstRead()
    ensures ReadPc(Begun, 0, "", false) == Writing(0, Empty, "", FirstPatch)
  {
    AskedPlan(Empty, "A", "1");
    hide PlanStage, Asked, Ask;
  }

  lemma FirstSteps()
    ensures Leads(Init, [Begin(0, FirstStage)] + [Read(0, "", false)], AboutToWrite)
  {
    FirstRead();
    hide ReadPc, Leads;
    LeadsOne(Init, Begin(0, FirstStage));
    assert Next(Init, Begin(0, FirstStage)) == Begun;
    LeadsThen(Init, [Begin(0, FirstStage)], Begun, Read(0, "", false));
    assert Next(Begun, Read(0, "", false)).callers == AboutToWrite.callers;
  }

  lemma InDoubtUpdate(st: State, patch: Patch, key: string)
    requires Usable(st).None? && ValidOperationId(key) && key !in st.doc.receipts && Apply(st.doc.snapshot, patch).Some?
    ensures Update(st, patch, st.doc.snapshot.revision, key, Doubtful).1 == Failed(Uncertain)
  {
    hide Apply, Evict, ValidOperationId;
  }

  lemma FirstDoubt()
    ensures CasUpdate(AboutToWrite, 0, Doubtful).1 == Failed(Uncertain)
  {
    AskedApplies(Empty, "A", "1");
    FirstKey();
    hide Apply, Key, ValidOperationId, Update, Asked, Ask;
    InDoubtUpdate(Init.store, FirstPatch, Key(FirstStage, 0));
  }

  lemma FirstKey()
    ensures ValidOperationId(Key(FirstStage, 0))
  {
    TextIsValid('1');
    assert "1" == ['1'];
    StageKeyFits(FirstStage, 0);
  }

  /** From a new store, a Stage fails in doubt; opened again, the store has the grant or has nothing. */
  lemma DoubtHappens(survives: bool) returns (t: System)
    ensures Leads(Init, [Begin(0, FirstStage)] + [Read(0, "", false)] + [Cas(0, Doubtful)] + [ReopenStore(survives)], t)
    ensures 0 in t.callers && t.callers[0].pc == Returned(CallResult.Error(CallError.Store(Uncertain)))
    ensures t.store.doc.snapshot == if survives then Doc(1, "A", "1") else Empty
  {
    hide Leads, CasUpdate, Effect, Inv, Asked, Ask, Doc;
    StageCommits(Empty, "A", "1");
    FirstSteps();
    FirstDoubt();
    InitInv();
    var first := [Begin(0, FirstStage)] + [Read(0, "", false)];
    InvAfter(Init, first, AboutToWrite);
    DoubtfulWriteSurvives(AboutToWrite, 0, Doubtful, survives);
    LeadsThen(Init, first, AboutToWrite, Cas(0, Doubtful));
    var mid := AfterCas(AboutToWrite, 0, Doubtful);
    LeadsThen(Init, first + [Cas(0, Doubtful)], mid, ReopenStore(survives));
    t := AfterReopen(mid, survives);
  }

  lemma {:induction false} InvAfter(s: System, steps: seq<Step>, t: System)
    requires Inv(s) && Leads(s, steps, t)
    ensures Inv(t)
    decreases |steps|
  {
    hide Inv, Next, Enabled;
    if steps != [] {
      StepKeeps(s, steps[0]);
      InvAfter(Next(s, steps[0]), steps[1..], t);
    }
  }
}
