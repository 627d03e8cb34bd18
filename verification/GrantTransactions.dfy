/**
 The operations as the program runs them: plan from a snapshot, write at its revision,
 and try again after a conflict, at most three times; an edit has one try.  The rivals
 of an attempt are the calls of others that run between its snapshot and its write.
 */
module GrantTransactions {
  import opened Basics
  import opened Sorting
  import opened GrantDocument
  import opened GrantOperations
  import opened GrantStore
  import opened GrantConcurrency
  import BlanketTag

  /** One whole call of another caller, with what the outside decides about it. */
  datatype Rival = Rival(call: Call, now: string, env: Env)

  /** What the outside decides about one attempt. */
  datatype Attempt = Attempt(now: string, readCancelled: bool, rivals: seq<Rival>, env: Env)

  datatype Reply = Ok | Locked | UnknownBlanket | Failure(error: CallError)

  // ---------- The loops inside the planners ----------

  /** The loop of Stage over the requested operations. */
  method BuildEntry(prev: Option<AddonGrants>, s: StageRequest, now: string) returns (entry: AddonGrants, added: seq<string>)
    ensures var start := StartingEntry(prev, s);
            var ops := NewOps(s, start.ops, !Continues(prev, s), now, s.ops);
            entry == start.(ops := start.ops + ops) && added == Names(ops)
  {
    entry := AddonGrants(s.identity, s.generation, s.operationId, []);
    var have: set<string> := {};
    var isNew := true;
    if prev.Some? && |prev.value.ops| > 0 && prev.value.identity == s.identity {
      entry := AddonGrants(s.identity, s.generation, prev.value.operationId, prev.value.ops);
      have := set op | op in prev.value.ops :: op.name;
      isNew := false;
    }
    added := [];
    var i := 0;
    ghost var start := entry;
    ghost var ops := [];
    assert have == set op | op in start.ops :: op.name;
    while i < |s.ops|
      invariant i <= |s.ops|
      invariant ops == NewOps(s, start.ops, isNew, now, s.ops[..i])
      invariant entry == start.(ops := start.ops + ops) && added == Names(ops)
    {
      hide HasName, NewOps, Names;
      var name := s.ops[i];
      NewOpsStep(s, start.ops, isNew, now, i);
      assert name in have <==> HasName(start.ops, name) by { NameInSet(start.ops, name); }
      if name !in have {
        var op := OpGrant(name, StageSource(s), now, s.actor, s.version,
                          if s.blanket.Some? then s.blanket.value else 0, "");
        if !isNew {
          op := op.(operationId := s.operationId);
        }
        assert start.ops + ops + [op] == start.ops + (ops + [op]);
        NamesAppend(ops, op);
        entry := entry.(ops := entry.ops + [op]);
        added := added + [name];
        ops := ops + [op];
      }
      i := i + 1;
    }
    assert s.ops[..i] == s.ops;
  }

  lemma NamesAppend(ops: seq<OpGrant>, op: OpGrant)
    ensures Names(ops + [op]) == Names(ops) + [op.name]
  {
  }

  lemma NewOpsStep(s: StageRequest, have: seq<OpGrant>, isNew: bool, now: string, i: nat)
    requires i < |s.ops|
    ensures NewOps(s, have, isNew, now, s.ops[..i + 1]) ==
            NewOps(s, have, isNew, now, s.ops[..i]) + if HasName(have, s.ops[i]) then [] else [NewOp(s, isNew, now, s.ops[i])]
  {
    assert s.ops[..i + 1][..i] == s.ops[..i];
  }

  lemma NameInSet(ops: seq<OpGrant>, name: string)
    ensures name in (set op | op in ops :: op.name) <==> HasName(ops, name)
  {
  }

  /** The loop of Abort over the operations of one entry. */
  method SplitEntry(e: AddonGrants, operationId: string) returns (kept: seq<OpGrant>, dropped: seq<string>)
    ensures kept == Filter(NotBy(e, operationId), e.ops)
    ensures dropped == [] <==> !StagedBy(e, operationId)
  {
    hide Filter;
    ghost var keep := NotBy(e, operationId);
    kept, dropped := [], [];
    var i := 0;
    FilterNone(keep, []);
    assert e.ops[..0] == [];
    while i < |e.ops|
      invariant i <= |e.ops|
      invariant kept == Filter(keep, e.ops[..i])
      invariant dropped == [] <==> forall k | 0 <= k < i :: keep(e.ops[k])
    {
      assert e.ops[..i + 1] == e.ops[..i] + [e.ops[i]];
      FilterLast(keep, e.ops[..i], e.ops[i]);
      if EffectiveOperationId(e, e.ops[i]) == operationId {
        assert !keep(e.ops[i]);
        dropped := dropped + [e.ops[i].name];
      } else {
        kept := kept + [e.ops[i]];
      }
      i := i + 1;
    }
    assert e.ops[..i] == e.ops;
  }

  /** The loop of Abort over the add-ons. */
  method BuildAbort(snap: Snapshot, operationId: string) returns (outcome: Outcome)
    ensures outcome == PlanAbort(snap, operationId)
  {
    hide Filter, StagedBy;
    var addons: map<string, Option<AddonGrants>> := map[];
    var todo := snap.grants.Keys;
    while todo != {}
      invariant todo <= snap.grants.Keys
      invariant forall id :: id in addons <==> id in snap.grants && id !in todo && StagedBy(snap.grants[id], operationId)
      invariant forall id | id in addons :: addons[id] == Trimmed(snap.grants[id], NotBy(snap.grants[id], operationId))
      decreases |todo|
    {
      var id :| id in todo;
      var e := snap.grants[id];
      var kept, dropped := SplitEntry(e, operationId);
      if |dropped| > 0 {
        addons := addons[id := if |kept| == 0 then None else Some(e.(ops := kept))];
      }
      todo := todo - {id};
    }
    assert addons == map id | id in snap.grants && StagedBy(snap.grants[id], operationId) ::
                       Trimmed(snap.grants[id], NotBy(snap.grants[id], operationId));
    outcome := if addons == map[] then Done else Write(Patch(addons, map[]));
  }

  /** The scan of stagedBy. */
  method IsStagedBy(e: AddonGrants, operationId: string) returns (staged: bool)
    ensures staged == StagedBy(e, operationId)
  {
    var i := 0;
    while i < |e.ops|
      invariant i <= |e.ops| && forall k | 0 <= k < i :: EffectiveOperationId(e, e.ops[k]) != operationId
    {
      if EffectiveOperationId(e, e.ops[i]) == operationId {
        return true;
      }
      i := i + 1;
    }
    return false;
  }

  /** The checks of Stage in their order, then the loop over the requested operations. */
  method BuildStage(snap: Snapshot, s: StageRequest, now: string) returns (outcome: Outcome)
    ensures outcome == PlanStage(snap, s, now)
  {
    hide StagedBy, NewOps;
    var prev := Entry(snap, s.addonId);
    if prev.Some? && prev.value.identity == s.identity {
      var staged := IsStagedBy(prev.value, s.operationId);
      if staged {
        return Done;
      }
    }
    if s.expectedRevision != 0 && s.expectedRevision != snap.revision {
      return Outcome.Stale;
    }
    if s.blanket.Some? {
      if s.blanket.value != snap.blanketRevision {
        return Outcome.Stale;
      }
    }
    var entry, added := BuildEntry(prev, s, now);
    if |added| == 0 {
      return Done;
    }
    return Write(Patch(map[s.addonId := Some(entry)], map[]));
  }

  /** Remove: the names it keeps as a hint are collected by a loop. */
  method BuildRemove(snap: Snapshot, addonId: string, keepHint: bool) returns (outcome: Outcome)
    ensures outcome == PlanRemove(snap, addonId, keepHint)
  {
    var had, hinted := addonId in snap.grants, addonId in snap.hints;
    if !had && !(hinted && !keepHint) {
      return Done;
    }
    var names: seq<string> := [];
    if had {
      var ops, i := snap.grants[addonId].ops, 0;
      while i < |ops|
        invariant i <= |ops| && names == Names(ops)[..i]
      {
        names := names + [ops[i].name];
        i := i + 1;
      }
      assert names == Names(ops);
    }
    var hints: map<string, seq<string>> := map[];
    if keepHint && |names| > 0 {
      hints := map[addonId := names];
    } else if hinted {
      hints := map[addonId := []];
    }
    return Write(Patch(map[addonId := None], hints));
  }

  /** The loop of Reconcile over the operations of one entry. */
  method SplitCompleted(e: AddonGrants, completed: set<string>) returns (kept: seq<OpGrant>, dropped: seq<string>)
    ensures kept == Filter(Completed(e, completed), e.ops)
    ensures dropped == [] <==> forall op | op in e.ops :: EffectiveOperationId(e, op) in completed
  {
    hide Filter;
    ghost var keep := Completed(e, completed);
    kept, dropped := [], [];
    var i := 0;
    FilterNone(keep, []);
    assert e.ops[..0] == [];
    while i < |e.ops|
      invariant i <= |e.ops|
      invariant kept == Filter(keep, e.ops[..i])
      invariant dropped == [] <==> forall k | 0 <= k < i :: keep(e.ops[k])
    {
      assert e.ops[..i + 1] == e.ops[..i] + [e.ops[i]];
      FilterLast(keep, e.ops[..i], e.ops[i]);
      if EffectiveOperationId(e, e.ops[i]) in completed {
        kept := kept + [e.ops[i]];
      } else {
        assert !keep(e.ops[i]);
        dropped := dropped + [e.ops[i].name];
      }
      i := i + 1;
    }
    assert e.ops[..i] == e.ops;
  }

  /** What Reconcile does with one entry: None keeps it, else it is replaced or deleted. */
  function Reconciled(id: string, e: AddonGrants, installed: map<string, string>, completed: set<string>): Option<Option<AddonGrants>> {
    if KeptWhole(id, e, installed, completed) then None
    else Some(if Matches(id, e, installed) then Trimmed(e, Completed(e, completed)) else None)
  }

  method ReconcileEntry(id: string, e: AddonGrants, installed: map<string, string>, completed: set<string>)
    returns (change: Option<Option<AddonGrants>>)
    ensures change == Reconciled(id, e, installed, completed)
  {
    hide Filter;
    if id !in installed || installed[id] != e.identity {
      return Some(None);
    }
    var kept, dropped := SplitCompleted(e, completed);
    if |dropped| == 0 {
      return None;
    }
    if |kept| == 0 {
      return Some(None);
    }
    return Some(Some(e.(ops := kept)));
  }

  /** The loop of Reconcile over the add-ons. */
  method BuildReconcile(snap: Snapshot, installed: map<string, string>, completed: set<string>) returns (outcome: Outcome)
    ensures outcome == PlanReconcile(snap, installed, completed)
  {
    hide Reconciled, PlanReconcile;
    var addons: map<string, Option<AddonGrants>> := map[];
    var todo := snap.grants.Keys;
    while todo != {}
      invariant todo <= snap.grants.Keys
      invariant forall id :: id in addons <==>
                  id in snap.grants && id !in todo && Reconciled(id, snap.grants[id], installed, completed).Some?
      invariant forall id | id in addons :: addons[id] == Reconciled(id, snap.grants[id], installed, completed).value
      decreases |todo|
    {
      var id :| id in todo;
      var change := ReconcileEntry(id, snap.grants[id], installed, completed);
      if change.Some? {
        addons := addons[id := change.value];
      }
      todo := todo - {id};
    }
    ReconcilePatch(snap, installed, completed, addons);
    outcome := if addons == map[] then Done else Write(Patch(addons, map[]));
  }

  lemma ReconcilePatch(snap: Snapshot, installed: map<string, string>, completed: set<string>, addons: map<string, Option<AddonGrants>>)
    requires forall id :: id in addons <==> id in snap.grants && Reconciled(id, snap.grants[id], installed, completed).Some?
    requires forall id | id in addons :: addons[id] == Reconciled(id, snap.grants[id], installed, completed).value
    ensures PlanReconcile(snap, installed, completed) == if addons == map[] then Done else Write(Patch(addons, map[]))
  {
    hide KeptWhole, Trimmed, Matches;
    var planned := map id | id in snap.grants && !KeptWhole(id, snap.grants[id], installed, completed) ::
                     if Matches(id, snap.grants[id], installed)
                     then Trimmed(snap.grants[id], Completed(snap.grants[id], completed))
                     else None;
    assert addons == planned;
  }

  // ---------- The retry loop ----------

  /** The whole call of a rival, uninterrupted. */
  function RunRival(st: State, r: Rival): State {
    if Usable(st).Some? then st
    else
      match Plan(r.call, st.doc.snapshot, r.now)
      case Write(patch) =>
        Update(st, patch, Expected(r.call, st.doc.snapshot), Key(r.call, st.doc.snapshot.revision), WriteEnv(r.call, r.env)).0
      case _ => st
  }

  function RunRivals(st: State, rivals: seq<Rival>): State {
    if rivals == [] then st else RunRival(RunRivals(st, rivals[..|rivals| - 1]), rivals[|rivals| - 1])
  }

  datatype Attempted = Again | Finished(reply: Reply)

  /** The write of a pass, after the calls of others. */
  function AttemptWrite(st: State, c: Call, a: Attempt, patch: Patch): (State, Result) {
    var snap := st.doc.snapshot;
    Update(RunRivals(st, a.rivals), patch, Expected(c, snap), Key(c, snap.revision), WriteEnv(c, a.env))
  }

  /** What a pass makes of the answer to its write. */
  function ReplyTo(c: Call, result: Result): Attempted {
    match result
    case Updated(_, _) => Finished(Ok)
    case Failed(error) =>
      if error != Conflict || c.Configure? then Finished(Failure(Store(error)))
      else if c.Stage? && c.request.expectedRevision != 0 then Finished(Failure(CallError.Stale))
      else Again
  }

  /** One pass of the loop: the state it leaves and whether the call is over. */
  function RunAttempt(st: State, c: Call, a: Attempt): (State, Attempted) {
    if a.readCancelled then (st, Finished(Failure(Store(Cancelled))))
    else if Usable(st).Some? then (st, Finished(Failure(Store(Usable(st).value))))
    else
      match Plan(c, st.doc.snapshot, a.now)
      case Done => (st, Finished(Ok))
      case Stale => (st, Finished(Failure(CallError.Stale)))
      case Write(patch) => (AttemptWrite(st, c, a, patch).0, ReplyTo(c, AttemptWrite(st, c, a, patch).1))
  }

  function RunCall(st: State, c: Call, attempts: seq<Attempt>): (State, Reply)
    decreases |attempts|
  {
    if attempts == [] then (st, Failure(GaveUp(c)))
    else
      var (after, attempted) := RunAttempt(st, c, attempts[0]);
      if attempted.Finished? then (after, attempted.reply) else RunCall(after, c, attempts[1..])
  }

  /**
   A call that nothing disturbs is atomic: it publishes its effect on the document it
   found, or publishes nothing, in its first attempt; an edit that names another revision
   publishes nothing.  That the key of a lifecycle call is not in use holds in every
   reachable state.
   */
  lemma UndisturbedCallIsAtomic(st: State, c: Call, attempts: seq<Attempt>)
    requires Consistent(st) && Usable(st).None? && |attempts| == MAX_ATTEMPTS
    requires attempts[0].rivals == [] && !attempts[0].readCancelled && attempts[0].env == Env(false, true, Durable)
    requires var key := Key(c, st.doc.snapshot.revision); ValidOperationId(key) && key !in st.doc.receipts
    ensures var outdated := c.Configure? && c.expected != st.doc.snapshot.revision;
            var effect := if outdated then None else Effect(c, st.doc.snapshot, attempts[0].now);
            && (effect.Some? ==> RunCall(st, c, attempts).1 == Ok)
            && (outdated ==> RunCall(st, c, attempts).1 == Failure(Store(Conflict)))
            && RunCall(st, c, attempts).0.doc.snapshot == (if effect.Some? then effect.value else st.doc.snapshot)
            && RunCall(st, c, attempts).0.disk == RunCall(st, c, attempts).0.doc
  {
    hide RunAttempt, Effect, Consistent, Key, ValidOperationId;
    UndisturbedAttempt(st, c, attempts[0]);
  }

  lemma UndisturbedAttempt(st: State, c: Call, a: Attempt)
    requires Consistent(st) && Usable(st).None?
    requires a.rivals == [] && !a.readCancelled && a.env == Env(false, true, Durable)
    requires var key := Key(c, st.doc.snapshot.revision); ValidOperationId(key) && key !in st.doc.receipts
    ensures var outdated := c.Configure? && c.expected != st.doc.snapshot.revision;
            var effect := if outdated then None else Effect(c, st.doc.snapshot, a.now);
            && RunAttempt(st, c, a).1.Finished? && (effect.Some? ==> RunAttempt(st, c, a).1.reply == Ok)
            && (outdated ==> RunAttempt(st, c, a).1.reply == Failure(Store(Conflict)))
            && RunAttempt(st, c, a).0.doc.snapshot == (if effect.Some? then effect.value else st.doc.snapshot)
            && RunAttempt(st, c, a).0.disk == RunAttempt(st, c, a).0.doc
  {
    hide Plan, Apply, Evict, ReceiptsInOrder, Key, ValidOperationId, AttemptWrite;
    if c.Configure? {
      EditPlan(c, st.doc.snapshot, a.now, st.doc.snapshot, a.now);
    }
    if Plan(c, st.doc.snapshot, a.now).Write? {
      FirstWrite(st, c, a, Plan(c, st.doc.snapshot, a.now).patch);
    }
  }

  lemma FirstWrite(st: State, c: Call, a: Attempt, patch: Patch)
    requires Consistent(st) && Usable(st).None?
    requires a.rivals == [] && a.env == Env(false, true, Durable)
    requires var key := Key(c, st.doc.snapshot.revision); ValidOperationId(key) && key !in st.doc.receipts
    ensures var (after, result) := AttemptWrite(st, c, a, patch);
            if Expected(c, st.doc.snapshot) != st.doc.snapshot.revision then after == st && result == Failed(Conflict)
            else if Apply(st.doc.snapshot, patch).None? then after == st && result == Failed(Invalid)
            else
              && result.Updated? && !result.replayed && after.doc == after.disk
              && after.doc.snapshot == Apply(st.doc.snapshot, patch).value.(revision := st.doc.snapshot.revision + 1)
  {
    hide Apply, Evict, ReceiptsInOrder, Key, ValidOperationId, Update;
    assert RunRivals(st, []) == st && WriteEnv(c, a.env) == a.env;
    UndisturbedWrite(st, patch, Expected(c, st.doc.snapshot), Key(c, st.doc.snapshot.revision));
  }

  lemma UndisturbedWrite(st: State, patch: Patch, expected: nat, key: string)
    requires Consistent(st) && Usable(st).None? && ValidOperationId(key) && key !in st.doc.receipts
    ensures var (after, result) := Update(st, patch, expected, key, Env(false, true, Durable));
            if expected != st.doc.snapshot.revision then after == st && result == Failed(Conflict)
            else if Apply(st.doc.snapshot, patch).None? then after == st && result == Failed(Invalid)
            else
              && result.Updated? && !result.replayed && after.doc == after.disk
              && after.doc.snapshot == Apply(st.doc.snapshot, patch).value.(revision := expected + 1)
  {
    hide Apply, Evict, ReceiptsInOrder, ValidOperationId;
  }

  /** The one pass of an edit. */
  lemma EditPass(st: State, c: Call, a: Attempt, after: State, result: Result)
    requires c.Configure? && !a.readCancelled && Usable(st).None?
    requires (after, result) == Update(RunRivals(st, a.rivals), Plan(c, st.doc.snapshot, a.now).patch,
                                       c.expected, c.editId, WriteEnv(c, a.env))
    ensures RunAttempt(st, c, a) == (after, Finished(if result.Updated? then Ok else Failure(Store(result.error))))
  {
    hide Update, RunRivals;
  }

  lemma EditUnread(st: State, c: Call, a: Attempt)
    requires a.readCancelled || Usable(st).Some?
    ensures RunAttempt(st, c, a) == (st, Finished(Failure(Store(if a.readCancelled then Cancelled else Usable(st).value))))
  {
  }

  class HostGrants {
    const store: Store
    const locked: bool

    constructor (store: Store, locked: bool)
      ensures this.store == store && this.locked == locked
    {
      this.store, this.locked := store, locked;
    }

    ghost predicate Valid()
      reads this, store
    {
      Consistent(store.Now())
    }

    /** The planners, with their loops. */
    method PlanCall(c: Call, snap: Snapshot, now: string) returns (outcome: Outcome)
      ensures outcome == Plan(c, snap, now)
    {
      hide PlanStage, PlanAbort, PlanRemove, PlanReconcile;
      match c
      case Stage(request) => outcome := BuildStage(snap, request, now);
      case Abort(operationId) => outcome := BuildAbort(snap, operationId);
      case Remove(addonId, keepHint) => outcome := BuildRemove(snap, addonId, keepHint);
      case Reconcile(installed, completed) => outcome := BuildReconcile(snap, installed, completed);
      case Configure(t, _, _) => outcome := Write(Patch(map[], map[], t.revokeBlanket, t.blanket, t.deny));
    }

    method RunOne(r: Rival)
      requires Valid()
      modifies store
      ensures Valid()
      ensures store.Now() == RunRival(old(store.Now()), r)
    {
      hide Plan, Update, Consistent;
      var snap, _ := store.Read(false);
      if snap.Some? {
        var outcome := PlanCall(r.call, snap.value, r.now);
        if outcome.Write? {
          var _ := WriteAt(r.call, outcome.patch, snap.value, r.env);
        }
      }
    }

    method Interfere(rivals: seq<Rival>)
      requires Valid()
      modifies store
      ensures Valid()
      ensures store.Now() == RunRivals(old(store.Now()), rivals)
    {
      hide RunRival, Consistent;
      var i := 0;
      while i < |rivals|
        invariant i <= |rivals| && Valid()
        invariant store.Now() == RunRivals(old(store.Now()), rivals[..i])
      {
        RunOne(rivals[i]);
        assert rivals[..i + 1][..i] == rivals[..i];
        i := i + 1;
      }
      assert rivals[..i] == rivals;
    }

    method WriteAt(c: Call, patch: Patch, snap: Snapshot, env: Env) returns (result: Result)
      requires Valid()
      modifies store
      ensures Valid()
      ensures (store.Now(), result) == Update(old(store.Now()), patch, Expected(c, snap), Key(c, snap.revision), WriteEnv(c, env))
    {
      hide Update;
      UpdateKeepsConsistent(store.Now(), patch, Expected(c, snap), Key(c, snap.revision), WriteEnv(c, env));
      result := store.UpdateAudited(patch, Expected(c, snap), Key(c, snap.revision), WriteEnv(c, env));
    }

    /** The loop `for range 3`. */
    method Transact(c: Call, attempts: seq<Attempt>) returns (reply: Reply)
      requires Valid() && |attempts| == MAX_ATTEMPTS && !c.Configure?
      modifies store
      ensures Valid()
      ensures (store.Now(), reply) == RunCall(old(store.Now()), c, attempts)
    {
      hide Plan, Update, Consistent, RunRivals, Key;
      var k := 0;
      while k < MAX_ATTEMPTS
        invariant k <= MAX_ATTEMPTS && Valid()
        invariant RunCall(old(store.Now()), c, attempts) == RunCall(store.Now(), c, attempts[k..])
      {
        var a := attempts[k];
        ghost var before := store.Now();
        assert attempts[k..][0] == a && attempts[k..][1..] == attempts[k + 1..];
        var snap, error := store.Read(a.readCancelled);
        if snap.None? {
          return Failure(Store(error));
        }
        var outcome := PlanCall(c, snap.value, a.now);
        if outcome.Done? {
          return Ok;
        }
        if outcome.Stale? {
          return Failure(CallError.Stale);
        }
        Interfere(a.rivals);
        var result := WriteAt(c, outcome.patch, snap.value, a.env);
        if result.Updated? {
          return Ok;
        }
        if result.error != Conflict {
          return Failure(Store(result.error));
        }
        if c.Stage? && c.request.expectedRevision != 0 {
          return Failure(CallError.Stale);
        }
        assert RunAttempt(before, c, a) == (store.Now(), Again);
        k := k + 1;
      }
      reply := Failure(GaveUp(c));
    }

    /** An administrator's edit: one read, one write at the revision that the page showed, and no second try. */
    method Edit(settings: Settings, expected: nat, editId: string, a: Attempt) returns (reply: Reply)
      requires Valid()
      modifies store
      ensures Valid()
      ensures locked ==> reply == Locked && store.Now() == old(store.Now())
      ensures !locked ==> (store.Now(), Finished(reply)) == RunAttempt(old(store.Now()), Configure(settings, expected, editId), a)
    {
      if locked {
        return Locked;
      }
      hide Update, Consistent, RunRivals, RunAttempt;
      var c := Configure(settings, expected, editId);
      ghost var before := store.Now();
      var snap, error := store.Read(a.readCancelled);
      if snap.None? {
        EditUnread(before, c, a);
        return Failure(Store(error));
      }
      Interfere(a.rivals);
      var patch := Patch(map[], map[], settings.revokeBlanket, settings.blanket, settings.deny);
      var result := WriteAt(c, patch, snap.value, a.env);
      EditPass(before, c, a, store.Now(), result);
      return if result.Updated? then Ok else Failure(Store(result.error));
    }

    /** Stage of a request whose blanket tag is still text; "" means there is none. */
    method Stage(request: StageRequest, blanket: string, attempts: seq<Attempt>) returns (reply: Reply)
      requires Valid() && |attempts| == MAX_ATTEMPTS
      modifies store
      ensures Valid()
      ensures locked ==> reply == Locked && store.Now() == old(store.Now())
      ensures !locked && blanket != "" && BlanketTag.Parse(blanket).None? ==>
                reply == UnknownBlanket && store.Now() == old(store.Now())
      ensures !locked && (blanket == "" || BlanketTag.Parse(blanket).Some?) ==>
                var named := if blanket == "" then None else Some(BlanketTag.Parse(blanket).value.revision);
                (store.Now(), reply) == RunCall(old(store.Now()), Call.Stage(request.(blanket := named)), attempts)
    {
      if locked {
        return Locked;
      }
      var named: Option<nat> := None;
      if blanket != "" {
        var tag := BlanketTag.Parse(blanket);
        if tag.None? {
          return UnknownBlanket;
        }
        named := Some(tag.value.revision);
      }
      reply := Transact(Call.Stage(request.(blanket := named)), attempts);
    }
  }
}
