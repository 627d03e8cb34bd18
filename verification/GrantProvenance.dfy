/**
 Who a grant belongs to, over whole runs of the transactions.
 */
module GrantProvenance {
  import opened Basics
  import opened Sorting
  import opened GrantDocument
  import opened GrantOperations

  // ---------- One transaction, grant by grant ----------

  /** What each transaction leaves of the grant `name` of add-on `id`. */
  function HolderAfter(c: Call, snap: Snapshot, id: string, name: string): Option<string> {
    var was := Holder(snap, id, name);
    match c
    case Stage(s) => HolderAfterStage(snap, s, id, name)
    case Abort(op) => if was == Some(op) then None else was
    case Remove(addonId, _) => if id == addonId then None else was
    case Reconcile(installed, completed) =>
      if id in snap.grants && Matches(id, snap.grants[id], installed) && was.Some? && was.value in completed then was else None
    case Configure(t, _, _) => if t.revokeBlanket && FromBlanket(snap, id, name) then None else was
  }

  /** The blanket switch made the grant. */
  predicate FromBlanket(snap: Snapshot, id: string, name: string) {
    id in snap.grants && Find(snap.grants[id].ops, name).Some? && Find(snap.grants[id].ops, name).value.source == Blanket
  }

  predicate NamesItsOperation(c: Call) {
    c.Stage? ==> c.request.operationId != ""
  }

  lemma EffectHolders(c: Call, snap: Snapshot, now: string, id: string, name: string)
    requires Published(snap) && NamesItsOperation(c)
    requires Effect(c, snap, now).Some?
    ensures Holder(Effect(c, snap, now).value, id, name) == HolderAfter(c, snap, id, name)
  {
    hide Effect, Published, HolderAfterStage, Holder;
    match c
    case Stage(s) => StageHolders(snap, s, now, id, name);
    case Remove(_, _) => RemoveHolders(c, snap, now, id, name);
    case Abort(_) => AbortHolders(c, snap, now, id, name);
    case Reconcile(_, _) => ReconcileHolders(c, snap, now, id, name);
    case Configure(_, _, _) => ConfigureHolders(c, snap, now, id, name);
  }

  lemma ConfigureHolders(c: Call, snap: Snapshot, now: string, id: string, name: string)
    requires Published(snap) && c.Configure?
    requires Effect(c, snap, now).Some?
    ensures Holder(Effect(c, snap, now).value, id, name) == HolderAfter(c, snap, id, name)
  {
    hide Apply, PlanStage, PlanRemove, PlanAbort, PlanReconcile, Find;
    var p := Plan(c, snap, now).patch;
    if c.settings.revokeBlanket {
      RevokeTakesBlanketGrants(snap, p, id, name);
    } else {
      ApplyEntry(snap, p, id);
    }
  }

  lemma RemoveHolders(c: Call, snap: Snapshot, now: string, id: string, name: string)
    requires Published(snap) && c.Remove?
    requires Effect(c, snap, now).Some?
    ensures Holder(Effect(c, snap, now).value, id, name) == HolderAfter(c, snap, id, name)
  {
    hide Apply, PlanStage, PlanAbort, PlanReconcile, Find;
    ApplyEntry(snap, PlanRemove(snap, c.addonId, c.keepHint).patch, id);
  }

  lemma AbortHolders(c: Call, snap: Snapshot, now: string, id: string, name: string)
    requires Published(snap) && c.Abort?
    requires Effect(c, snap, now).Some?
    ensures Holder(Effect(c, snap, now).value, id, name) == HolderAfter(c, snap, id, name)
  {
    hide Apply, PlanStage, PlanRemove, PlanReconcile, Find, Trimmed;
    ApplyEntry(snap, PlanAbort(snap, c.operationId).patch, id);
    if id in snap.grants {
      var e := snap.grants[id];
      TrimmedHolder(e, NotBy(e, c.operationId), name);
      FindIff(e.ops, name);
    }
  }

  lemma ReconcileHolders(c: Call, snap: Snapshot, now: string, id: string, name: string)
    requires Published(snap) && c.Reconcile?
    requires Effect(c, snap, now).Some?
    ensures Holder(Effect(c, snap, now).value, id, name) == HolderAfter(c, snap, id, name)
  {
    hide Apply, PlanStage, PlanRemove, PlanAbort, Find, Trimmed;
    ApplyEntry(snap, PlanReconcile(snap, c.installed, c.completed).patch, id);
    if id in snap.grants {
      var e := snap.grants[id];
      TrimmedHolder(e, Completed(e, c.completed), name);
      FindIff(e.ops, name);
    }
  }

  /** A trimmed entry holds the kept grants, and is gone when nothing is kept. */
  lemma TrimmedHolder(e: AddonGrants, keep: OpGrant -> bool, name: string)
    requires StrictlySorted(NameOf, e.ops)
    ensures var f, t := Find(e.ops, name), Trimmed(e, keep);
            var left := if f.Some? && keep(f.value) then f else None;
            if t.Some? then t.value == e.(ops := t.value.ops) && Find(Sort(NameOf, t.value.ops), name) == left
            else left == None
  {
    TrimmedHolders(e, keep, name);
  }

  // ---------- Runs ----------

  datatype Commit = Commit(call: Call, now: string, before: Snapshot, after: Snapshot)

  function Last(start: Snapshot, run: seq<Commit>): Snapshot {
    if run == [] then start else run[|run| - 1].after
  }

  /** A sequential run: every transaction starts from the state the one before it published. */
  ghost predicate Sequential(start: Snapshot, run: seq<Commit>) {
    run == [] ||
    (var c := run[|run| - 1];
     && Sequential(start, run[..|run| - 1])
     && c.before == Last(start, run[..|run| - 1])
     && Effect(c.call, c.before, c.now) == Some(c.after))
  }

  ghost predicate OperationsNamed(run: seq<Commit>) {
    forall i | 0 <= i < |run| :: NamesItsOperation(run[i].call)
  }

  /** No two Stage transactions of a run share an operation ID. */
  ghost predicate OperationsUnique(run: seq<Commit>) {
    forall i, j | 0 <= i < j < |run| && run[i].call.Stage? && run[j].call.Stage? ::
      run[i].call.request.operationId != run[j].call.request.operationId
  }

  /** Stage c adds the grant: it asks for the name and the entry it continues, if any, lacks it. */
  predicate Adds(c: Commit, id: string, name: string) {
    && c.call.Stage? && c.call.request.addonId == id && name in c.call.request.ops
    && !(Continues(Entry(c.before, id), c.call.request) && Holder(c.before, id, name).Some?)
  }

  /** The operation of the last Stage of the run that added the grant. */
  function Origin(run: seq<Commit>, id: string, name: string): Option<string> {
    if run == [] then None
    else
      var c := run[|run| - 1];
      if Adds(c, id, name) then Some(c.call.request.operationId) else Origin(run[..|run| - 1], id, name)
  }

  lemma {:induction false} SequentialPublishes(start: Snapshot, run: seq<Commit>)
    requires Published(start) && Sequential(start, run)
    ensures Published(Last(start, run)) && Last(start, run).revision == start.revision + |run|
  {
    if run != [] {
      hide Effect, Published;
      var c := run[|run| - 1];
      SequentialPublishes(start, run[..|run| - 1]);
      EffectPublishes(c.call, c.before, c.now);
    }
  }

  lemma EmptyPublished()
    ensures Published(Empty)
  {
  }

  lemma {:induction false} PrefixSequential(start: Snapshot, run: seq<Commit>, i: nat)
    requires Sequential(start, run) && i <= |run|
    ensures Sequential(start, run[..i])
  {
    hide Effect;
    if i < |run| {
      var front := run[..|run| - 1];
      PrefixSequential(start, front, i);
      assert front[..i] == run[..i];
    } else {
      assert run[..i] == run;
    }
  }

  lemma {:induction false} CommitAt(start: Snapshot, run: seq<Commit>, i: nat)
    requires Sequential(start, run) && i < |run|
    ensures run[i].before == Last(start, run[..i])
    ensures Effect(run[i].call, run[i].before, run[i].now) == Some(run[i].after)
  {
    hide Effect;
    var front := run[..|run| - 1];
    if i == |run| - 1 {
      assert run[..i] == front;
    } else {
      CommitAt(start, front, i);
      assert front[..i] == run[..i];
    }
  }

  /**
   In every run, from any published document, a Stage commits only on the document it was
   planned against: its revision is the one the request expects, and its switch is at the
   revision that the blanket tag names.
   */
  lemma RunHonoursClaims(start: Snapshot, run: seq<Commit>, i: nat)
    requires Published(start) && Sequential(start, run) && i < |run| && run[i].call.Stage?
    ensures var asked := run[i].call.request;
            && run[i].before == Last(start, run[..i]) && run[i].before.revision == start.revision + i
            && (asked.expectedRevision == 0 || asked.expectedRevision == start.revision + i)
            && (asked.blanket.Some? ==> asked.blanket.value == run[i].before.blanketRevision)
  {
    hide Effect, Last, Published;
    CommitAt(start, run, i);
    PrefixSequential(start, run, i);
    SequentialPublishes(start, run[..i]);
    CommittedStageHonoursClaims(run[i].before, run[i].call.request, run[i].now);
  }

  /** A grant present after a transaction was added by it or was there before. */
  lemma HeldOrAdded(c: Commit, id: string, name: string)
    ensures var h := HolderAfter(c.call, c.before, id, name);
            h.Some? ==> h == if Adds(c, id, name) then Some(c.call.request.operationId) else Holder(c.before, id, name)
  {
    hide Holder, Continues, Matches;
  }

  /**
   Over every run from the empty document, the operation that a surviving grant
   waits for is the one whose Stage added it, whatever was staged, aborted,
   removed or reconciled in between.
   */
  lemma {:induction false} HolderIsOrigin(run: seq<Commit>, id: string, name: string)
    requires Sequential(Empty, run) && OperationsNamed(run)
    ensures var holder := Holder(Last(Empty, run), id, name);
            holder.Some? ==> holder == Origin(run, id, name)
  {
    if run != [] {
      var c, front := run[|run| - 1], run[..|run| - 1];
      hide Effect, Published, Holder, HolderAfter, Adds;
      EmptyPublished();
      SequentialPublishes(Empty, front);
      HolderIsOrigin(front, id, name);
      assert NamesItsOperation(c.call);
      EffectHolders(c.call, c.before, c.now, id, name);
      HeldOrAdded(c, id, name);
    }
  }

  lemma {:induction false} OriginIsAStage(run: seq<Commit>, id: string, name: string) returns (k: nat)
    requires Origin(run, id, name).Some?
    ensures k < |run| && run[k].call.Stage?
    ensures run[k].call.request.operationId == Origin(run, id, name).value
    ensures run[k].call.request.addonId == id && name in run[k].call.request.ops
  {
    var last := |run| - 1;
    if Adds(run[last], id, name) {
      k := last;
    } else {
      k := OriginIsAStage(run[..last], id, name);
    }
  }

  /**
   Abort removes exactly what its operation staged: a grant is gone afterwards if
   and only if the Stage of that operation added it, every other grant keeps its
   origin, and only the one add-on that the operation staged for is touched.
   */
  lemma AbortRemovesItsOwn(run: seq<Commit>, operationId: string, now: string, id: string, name: string)
    requires Sequential(Empty, run) && OperationsNamed(run) && OperationsUnique(run)
    requires Effect(Abort(operationId), Last(Empty, run), now).Some?
    requires Holder(Last(Empty, run), id, name).Some?
    ensures var after := Effect(Abort(operationId), Last(Empty, run), now).value;
            && (Holder(after, id, name).None? <==> Origin(run, id, name) == Some(operationId))
            && (Holder(after, id, name).Some? ==> Holder(after, id, name) == Origin(run, id, name))
    ensures Origin(run, id, name) == Some(operationId) ==>
              forall k | 0 <= k < |run| && run[k].call.Stage? && run[k].call.request.operationId == operationId ::
                run[k].call.request.addonId == id && name in run[k].call.request.ops
  {
    hide Effect, Published, Holder, Sequential, Adds, Origin;
    EmptyPublished();
    SequentialPublishes(Empty, run);
    HolderIsOrigin(run, id, name);
    EffectHolders(Abort(operationId), Last(Empty, run), now, id, name);
    if Origin(run, id, name) == Some(operationId) {
      var i := OriginIsAStage(run, id, name);
    }
  }
}
