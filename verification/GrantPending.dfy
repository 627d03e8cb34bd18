/**
 A staged operation that has not completed: what undoing it restores, and what
 the authority allows while it is pending.
 */
module GrantPending {
  import opened Basics
  import opened Sorting
  import opened GrantDocument
  import opened GrantOperations
  import opened GrantProvenance

  // ---------- Stage, then Abort ----------

  function OpsOf(snap: Snapshot, id: string): seq<OpGrant> {
    if id in snap.grants then snap.grants[id].ops else []
  }

  /** Nothing in the document waits for the operation. */
  ghost predicate Unused(snap: Snapshot, operationId: string) {
    forall id | id in snap.grants :: !StagedBy(snap.grants[id], operationId)
  }

  predicate SameIdentityOrNone(snap: Snapshot, s: StageRequest) {
    s.addonId in snap.grants ==> snap.grants[s.addonId].identity == s.identity
  }

  /** What Abort leaves of the entry that Stage just wrote: the entry Stage started from. */
  lemma StagedEntryTrims(s: StageRequest, start: AddonGrants, isNew: bool, now: string, staged: AddonGrants)
    requires s.operationId != "" && StrictlySorted(NameOf, start.ops)
    requires isNew ==> start.operationId == s.operationId
    requires !StagedBy(start, s.operationId)
    requires staged == start.(ops := Sort(NameOf, start.ops + NewOps(s, start.ops, isNew, now, s.ops)))
    ensures Filter(NotBy(staged, s.operationId), staged.ops) == start.ops
  {
    hide Filter, Sort;
    var added := NewOps(s, start.ops, isNew, now, s.ops);
    var keep := NotBy(staged, s.operationId);
    NewOpsNames(s, start.ops, isNew, now, s.ops);
    FilterSort(NameOf, keep, start.ops + added);
    FilterAppend(keep, start.ops, added);
    FilterAll(keep, start.ops);
    forall op | op in added ensures !keep(op) {
      var i :| 0 <= i < |added| && added[i] == op;
    }
    FilterNone(keep, added);
    assert start.ops + [] == start.ops;
    StrictlySortedFacts(NameOf, start.ops);
    SortOfSorted(NameOf, start.ops);
  }

  /** The document that an Abort right after the Stage must restore, up to the generation of the entry. */
  predicate Restored(snap: Snapshot, s: StageRequest, end: Snapshot) {
    && end.grants.Keys == snap.grants.Keys
    && end.hints == snap.hints
    && forall id | id in snap.grants ::
         end.grants[id] == if id == s.addonId then snap.grants[id].(generation := s.generation) else snap.grants[id]
  }

  /** A published document is its own normal form. */
  lemma NormalForm(s: Snapshot)
    requires Published(s)
    ensures Normalize(s) == s
  {
    hide Sort, ValidSnapshot;
    forall k | k in s.grants ensures s.grants[k].(ops := Sort(NameOf, s.grants[k].ops)) == s.grants[k] {
      StrictlySortedFacts(NameOf, s.grants[k].ops);
      SortOfSorted(NameOf, s.grants[k].ops);
    }
    forall k | k in s.hints ensures Sort(Self, s.hints[k]) == s.hints[k] {
      SortOfSorted(Self, s.hints[k]);
    }
    assert Normalize(s).grants == s.grants && Normalize(s).hints == s.hints;
  }

  /** Stage touches one entry and no hint. */
  ghost predicate OthersKept(snap: Snapshot, s: StageRequest, mid: Snapshot) {
    && mid.grants.Keys == snap.grants.Keys + {s.addonId} && mid.hints == snap.hints
    && forall id | id in snap.grants && id != s.addonId :: mid.grants[id] == snap.grants[id]
  }

  /** mid is snap with the staged entry in place of the one Stage started from. */
  ghost predicate IsStaged(snap: Snapshot, s: StageRequest, now: string, mid: Snapshot) {
    var isNew := !Continues(Entry(snap, s.addonId), s);
    var start := StartingEntry(Entry(snap, s.addonId), s);
    var added := NewOps(s, start.ops, isNew, now, s.ops);
    && OthersKept(snap, s, mid)
    && mid.grants[s.addonId] == start.(ops := Sort(NameOf, start.ops + added))
    && added != []
  }

  lemma StagedEntry(snap: Snapshot, s: StageRequest, now: string, mid: Snapshot)
    requires Published(snap) && Effect(Stage(s), snap, now) == Some(mid)
    ensures IsStaged(snap, s, now, mid)
  {
    hide Apply, PlanAbort, PlanRemove, PlanReconcile, NewOps, Sort, Published, StagedBy;
    var patch := PlanStage(snap, s, now).patch;
    ApplyEntry(snap, patch, s.addonId);
    OtherEntries(snap, s, patch.addons[s.addonId].value, Apply(snap, patch).value);
  }

  lemma OtherEntries(snap: Snapshot, s: StageRequest, entry: AddonGrants, mid: Snapshot)
    requires Published(snap)
    requires Apply(snap, Patch(map[s.addonId := Some(entry)], map[])) == Some(mid)
    ensures OthersKept(snap, s, mid)
  {
    hide Sort, ValidSnapshot, Published, Normalize;
    var patch := Patch(map[s.addonId := Some(entry)], map[]);
    assert PatchedGrants(snap.grants, patch.addons) == snap.grants[s.addonId := entry];
    assert PatchedHints(snap.hints, patch.hints) == snap.hints;
    NormalForm(snap);
    hide PatchedGrants, PatchedHints;
    OneChanged(snap, s, entry, mid);
  }

  lemma OneChanged(snap: Snapshot, s: StageRequest, entry: AddonGrants, mid: Snapshot)
    requires Normalize(snap) == snap
    requires mid == Normalize(snap.(grants := snap.grants[s.addonId := entry]))
    ensures OthersKept(snap, s, mid)
  {
    hide Sort;
    forall id | id in snap.grants && id != s.addonId ensures mid.grants[id] == snap.grants[id] {
      assert Normalize(snap).grants[id] == snap.grants[id];
    }
    assert Normalize(snap).hints == snap.hints;
  }

  /** Abort of an operation that only one entry waits for. */
  lemma AbortOfOne(snap: Snapshot, operationId: string, id: string)
    requires id in snap.grants && StagedBy(snap.grants[id], operationId)
    requires forall other | other in snap.grants && other != id :: !StagedBy(snap.grants[other], operationId)
    ensures PlanAbort(snap, operationId)
            == Write(Patch(map[id := Trimmed(snap.grants[id], NotBy(snap.grants[id], operationId))], map[]))
  {
    hide StagedBy, Trimmed;
    var addons := map k | k in snap.grants && StagedBy(snap.grants[k], operationId) ::
                    Trimmed(snap.grants[k], NotBy(snap.grants[k], operationId));
    assert id in addons;
    assert addons == map[id := Trimmed(snap.grants[id], NotBy(snap.grants[id], operationId))];
  }

  /** What is left of the staged entry when its operation is aborted. */
  function LeftByAbort(snap: Snapshot, s: StageRequest): Option<AddonGrants> {
    var start := StartingEntry(Entry(snap, s.addonId), s);
    if start.ops == [] then None else Some(start)
  }

  /** The patch of the Abort: only the staged entry, cut back to where Stage started. */
  lemma AbortPatch(snap: Snapshot, s: StageRequest, now: string, mid: Snapshot)
    requires Published(snap) && s.operationId != "" && Unused(snap, s.operationId)
    requires IsStaged(snap, s, now, mid)
    ensures PlanAbort(mid, s.operationId) == Write(Patch(map[s.addonId := LeftByAbort(snap, s)], map[]))
  {
    hide PlanAbort, NewOps, Sort, Filter, Published;
    var isNew := !Continues(Entry(snap, s.addonId), s);
    var start := StartingEntry(Entry(snap, s.addonId), s);
    StartIsSorted(snap, s);
    var staged := mid.grants[s.addonId];
    StagedEntryTrims(s, start, isNew, now, staged);
    StagedByItself(s, start, isNew, now, staged);
    forall id | id in mid.grants && id != s.addonId ensures !StagedBy(mid.grants[id], s.operationId) {
      assert mid.grants[id] == snap.grants[id];
    }
    AbortOfOne(mid, s.operationId, s.addonId);
  }

  lemma StartIsSorted(snap: Snapshot, s: StageRequest)
    requires Published(snap)
    ensures StrictlySorted(NameOf, StartingEntry(Entry(snap, s.addonId), s).ops)
  {
  }

  lemma StagedByItself(s: StageRequest, start: AddonGrants, isNew: bool, now: string, staged: AddonGrants)
    requires s.operationId != "" && (isNew ==> start.operationId == s.operationId)
    requires NewOps(s, start.ops, isNew, now, s.ops) != []
    requires staged == start.(ops := Sort(NameOf, start.ops + NewOps(s, start.ops, isNew, now, s.ops)))
    ensures StagedBy(staged, s.operationId)
  {
    hide Sort, NewOps;
    var added := NewOps(s, start.ops, isNew, now, s.ops);
    NewOpsNames(s, start.ops, isNew, now, s.ops);
    InMerged(start.ops, added);
    assert added[0] in added;
    assert added[0] in staged.ops && EffectiveOperationId(staged, added[0]) == s.operationId;
  }

  function WithEntry(snap: Snapshot, id: string, entry: Option<AddonGrants>): Snapshot {
    snap.(grants := if entry.Some? then snap.grants[id := entry.value] else snap.grants - {id})
  }

  ghost predicate GoodEntry(snap: Snapshot, id: string, entry: Option<AddonGrants>) {
    entry.Some? ==> ValidEntry(id, entry.value, snap.blanketRevision) && StrictlySorted(NameOf, entry.value.ops)
  }

  lemma WithEntryPublished(snap: Snapshot, id: string, entry: Option<AddonGrants>)
    requires Published(snap) && id in snap.grants && GoodEntry(snap, id, entry)
    ensures Published(WithEntry(snap, id, entry))
  {
    hide ValidEntry, ValidHint;
    var next := WithEntry(snap, id, entry);
    SubsetSize(next.grants.Keys, snap.grants.Keys);
  }

  /** Writing a good entry over a present one, or deleting it, is always a valid change. */
  lemma ApplyOne(snap: Snapshot, id: string, entry: Option<AddonGrants>)
    requires Published(snap) && id in snap.grants && GoodEntry(snap, id, entry)
    ensures Apply(snap, Patch(map[id := entry], map[])) == Some(WithEntry(snap, id, entry))
  {
    hide Normalize, Published, GoodEntry;
    var p := Patch(map[id := entry], map[]);
    assert PatchedGrants(snap.grants, p.addons) == WithEntry(snap, id, entry).grants;
    assert PatchedHints(snap.hints, p.hints) == snap.hints;
    WithEntryPublished(snap, id, entry);
    NormalForm(WithEntry(snap, id, entry));
    PublishedIsValid(WithEntry(snap, id, entry));
  }

  lemma PublishedIsValid(s: Snapshot)
    requires Published(s)
    ensures ValidSnapshot(s)
  {
  }

  lemma LeftIsGood(snap: Snapshot, s: StageRequest, now: string, mid: Snapshot)
    requires Published(snap) && Published(mid) && IsStaged(snap, s, now, mid)
    requires mid.blanketRevision == snap.blanketRevision
    ensures GoodEntry(mid, s.addonId, LeftByAbort(snap, s))
  {
    hide NewOps, Sort;
    assert ValidEntry(s.addonId, mid.grants[s.addonId], mid.blanketRevision);
  }

  /** The document after Stage and Abort. */
  lemma AbortEffect(snap: Snapshot, s: StageRequest, now: string, mid: Snapshot, later: string)
    requires Published(snap) && s.operationId != "" && Unused(snap, s.operationId)
    requires Effect(Stage(s), snap, now) == Some(mid)
    ensures IsStaged(snap, s, now, mid)
    ensures Effect(Abort(s.operationId), mid, later)
            == Some(WithEntry(mid, s.addonId, LeftByAbort(snap, s)).(revision := mid.revision + 1))
  {
    hide PlanAbort, PlanStage, PlanRemove, PlanReconcile, Apply, LeftByAbort, GoodEntry, Published, Unused;
    EffectPublishes(Stage(s), snap, now);
    StagedEntry(snap, s, now, mid);
    AbortPatch(snap, s, now, mid);
    LeftIsGood(snap, s, now, mid);
    assert s.addonId in mid.grants;
    ApplyOne(mid, s.addonId, LeftByAbort(snap, s));
  }

  /**
   Stage, then Abort of the same operation.  The Abort always succeeds.  Every
   operation list is restored, in order, if and only if the add-on had no entry
   or one of the same identity; then only the generation of the entry differs.
   */
  lemma StageThenAbort(snap: Snapshot, s: StageRequest, now: string, mid: Snapshot, later: string)
    requires Published(snap) && s.operationId != "" && Unused(snap, s.operationId)
    requires Effect(Stage(s), snap, now) == Some(mid)
    ensures Effect(Abort(s.operationId), mid, later).Some?
    ensures var end := Effect(Abort(s.operationId), mid, later).value;
            (forall id :: OpsOf(end, id) == OpsOf(snap, id)) <==> SameIdentityOrNone(snap, s)
    ensures SameIdentityOrNone(snap, s) ==> Restored(snap, s, Effect(Abort(s.operationId), mid, later).value)
  {
    hide Effect, Published;
    AbortEffect(snap, s, now, mid, later);
    Undone(snap, s, mid, Effect(Abort(s.operationId), mid, later).value);
  }

  lemma LeftCases(snap: Snapshot, s: StageRequest)
    requires Published(snap)
    ensures LeftByAbort(snap, s) ==
            if s.addonId in snap.grants && snap.grants[s.addonId].identity == s.identity
            then Some(snap.grants[s.addonId].(generation := s.generation))
            else None
  {
    hide Published;
    PublishedEntries(snap, s.addonId, "");
  }

  lemma Undone(snap: Snapshot, s: StageRequest, mid: Snapshot, end: Snapshot)
    requires Published(snap) && OthersKept(snap, s, mid)
    requires end == WithEntry(mid, s.addonId, LeftByAbort(snap, s)).(revision := mid.revision + 1)
    ensures (forall id :: OpsOf(end, id) == OpsOf(snap, id)) <==> SameIdentityOrNone(snap, s)
    ensures SameIdentityOrNone(snap, s) ==> Restored(snap, s, end)
  {
    hide Published, LeftByAbort, OthersKept, Restored;
    LeftCases(snap, s);
    if SameIdentityOrNone(snap, s) {
      UndoneSame(snap, s, mid, end);
      RestoredOps(snap, s, end);
    } else {
      PublishedEntries(snap, s.addonId, "");
      assert OpsOf(end, s.addonId) != OpsOf(snap, s.addonId);
    }
  }

  lemma UndoneSame(snap: Snapshot, s: StageRequest, mid: Snapshot, end: Snapshot)
    requires Published(snap) && OthersKept(snap, s, mid) && SameIdentityOrNone(snap, s)
    requires end == WithEntry(mid, s.addonId, LeftByAbort(snap, s)).(revision := mid.revision + 1)
    ensures Restored(snap, s, end)
  {
    hide Published, LeftByAbort;
    LeftCases(snap, s);
    assert end.grants.Keys == snap.grants.Keys;
  }

  lemma RestoredOps(snap: Snapshot, s: StageRequest, end: Snapshot)
    requires Restored(snap, s, end)
    ensures forall id :: OpsOf(end, id) == OpsOf(snap, id)
  {
  }

  // ---------- The authority ----------

  /**
   Whether the entries of the document allow the add-on the operation: the entry
   is of the installed package and the operation that added the grant completed.
   */
  predicate Allows(snap: Snapshot, identity: string, completed: set<string>, id: string, name: string) {
    && id in snap.grants
    && identity != "" && snap.grants[id].identity == identity
    && Holder(snap, id, name).Some? && Holder(snap, id, name).value in completed
  }

  /**
   By the records of a published document: an add-on may use an operation exactly when its
   entry is of the installed package and holds a grant of that name whose operation, its
   own or else that of the entry, completed.
   */
  lemma AllowsIff(snap: Snapshot, identity: string, completed: set<string>, id: string, name: string)
    requires Published(snap)
    ensures Allows(snap, identity, completed, id, name) <==>
              && id in snap.grants && identity != "" && snap.grants[id].identity == identity
              && var e := snap.grants[id];
                 exists i | 0 <= i < |e.ops| ::
                   e.ops[i].name == name && (if e.ops[i].operationId == "" then e.operationId else e.ops[i].operationId) in completed
  {
    if id in snap.grants {
      var e := snap.grants[id];
      PublishedOps(snap, id);
      hide Published;
      FindIff(e.ops, name);
      if Find(e.ops, name).Some? {
        var i :| 0 <= i < |e.ops| && e.ops[i] == Find(e.ops, name).value;
      }
      forall i | 0 <= i < |e.ops| && e.ops[i].name == name ensures Find(e.ops, name) == Some(e.ops[i]) {
        FindUnique(e.ops, e.ops[i]);
      }
    }
  }

  lemma PublishedOps(snap: Snapshot, id: string)
    requires Published(snap) && id in snap.grants
    ensures DistinctKeys(NameOf, snap.grants[id].ops)
  {
  }

  /** The two documents allow the same to every caller; the reason of a refusal may differ. */
  ghost predicate SameAllowed(a: Snapshot, b: Snapshot, completed: set<string>) {
    forall identity, id, name :: Allows(a, identity, completed, id, name) <==> Allows(b, identity, completed, id, name)
  }

  /** The entry that Stage would replace grants nothing now. */
  ghost predicate NothingToLose(snap: Snapshot, s: StageRequest, completed: set<string>) {
    SameIdentityOrNone(snap, s)
    || forall name :: Holder(snap, s.addonId, name).Some? ==> Holder(snap, s.addonId, name).value !in completed
  }

  /**
   While its operation is not completed a Stage allows the same as before, unless it
   replaces an entry of another identity that grants something: then, and only
   then, grants that work today are lost before the operation completes.
   */
  lemma PendingStageAllowsTheSame(snap: Snapshot, s: StageRequest, now: string, completed: set<string>)
    requires Published(snap) && s.operationId != "" && s.operationId !in completed
    requires Effect(Stage(s), snap, now).Some?
    ensures SameAllowed(snap, Effect(Stage(s), snap, now).value, completed) <==> NothingToLose(snap, s, completed)
  {
    hide Effect, Holder, Published;
    var after := Effect(Stage(s), snap, now).value;
    if NothingToLose(snap, s, completed) {
      forall identity, id, name
        ensures Allows(snap, identity, completed, id, name) <==> Allows(after, identity, completed, id, name)
      {
        PendingAllows(snap, s, now, completed, identity, id, name);
      }
    } else {
      var name :| Holder(snap, s.addonId, name).Some? && Holder(snap, s.addonId, name).value in completed;
      StagedEntry(snap, s, now, Effect(Stage(s), snap, now).value);
      PublishedEntries(snap, s.addonId, name);
      var identity := snap.grants[s.addonId].identity;
      assert Allows(snap, identity, completed, s.addonId, name) && !Allows(after, identity, completed, s.addonId, name);
    }
  }

  lemma PendingAllows(snap: Snapshot, s: StageRequest, now: string, completed: set<string>,
                      identity: string, id: string, name: string)
    requires Published(snap) && s.operationId != "" && s.operationId !in completed
    requires Effect(Stage(s), snap, now).Some? && NothingToLose(snap, s, completed)
    ensures Allows(snap, identity, completed, id, name) <==>
            Allows(Effect(Stage(s), snap, now).value, identity, completed, id, name)
  {
    hide Effect, Holder, Published;
    StagedEntry(snap, s, now, Effect(Stage(s), snap, now).value);
    StageHolders(snap, s, now, id, name);
    PublishedEntries(snap, id, name);
  }

  lemma PublishedEntries(snap: Snapshot, id: string, name: string)
    requires Published(snap)
    ensures id in snap.grants ==> snap.grants[id].ops != [] && snap.grants[id].identity != ""
    ensures Holder(snap, id, name).Some? ==> id in snap.grants
  {
  }

  /** Aborting an operation that did not complete allows the same as before. */
  lemma PendingAbortAllowsTheSame(snap: Snapshot, operationId: string, now: string, completed: set<string>)
    requires Published(snap) && operationId !in completed
    requires Effect(Abort(operationId), snap, now).Some?
    ensures SameAllowed(snap, Effect(Abort(operationId), snap, now).value, completed)
  {
    hide Effect, Holder;
    var after := Effect(Abort(operationId), snap, now).value;
    forall identity, id, name
      ensures Allows(snap, identity, completed, id, name) <==> Allows(after, identity, completed, id, name)
    {
      EffectHolders(Abort(operationId), snap, now, id, name);
      AbortKeepsIdentity(snap, operationId, now, id, name);
    }
  }

  lemma AbortKeepsIdentity(snap: Snapshot, operationId: string, now: string, id: string, name: string)
    requires Published(snap) && Effect(Abort(operationId), snap, now).Some?
    ensures var after := Effect(Abort(operationId), snap, now).value;
            && (id in after.grants ==> id in snap.grants && after.grants[id].identity == snap.grants[id].identity)
            && (Holder(after, id, name).Some? ==> id in after.grants)
            && (Holder(snap, id, name).Some? ==> id in snap.grants)
  {
    hide Apply, PlanStage, PlanRemove, PlanReconcile, Filter, Find;
    ApplyEntry(snap, PlanAbort(snap, operationId).patch, id);
  }

  /** Stage reports success: it wrote, or found nothing to write. */
  predicate StageSucceeds(snap: Snapshot, s: StageRequest, now: string) {
    PlanStage(snap, s, now).Done? || Effect(Stage(s), snap, now).Some?
  }

  /** The document that a successful Stage leaves. */
  function LeftByStage(snap: Snapshot, s: StageRequest, now: string): Snapshot {
    if Effect(Stage(s), snap, now).Some? then Effect(Stage(s), snap, now).value else snap
  }

  /** The operation for which an entry of the package itself already holds the name. */
  function OwnHolder(snap: Snapshot, s: StageRequest, name: string): Option<string> {
    if SameIdentityOrNone(snap, s) then Holder(snap, s.addonId, name) else None
  }

  /** An earlier Stage of the same operation is already recorded for the package. */
  predicate AlreadyStaged(snap: Snapshot, s: StageRequest) {
    s.addonId in snap.grants && snap.grants[s.addonId].identity == s.identity && StagedBy(snap.grants[s.addonId], s.operationId)
  }

  /**
   What the completion of a successfully staged operation makes effective.  A requested
   name that the entry of the package already holds is allowed exactly when the operation
   it is held for completed; any other name exactly when the operation was not already
   staged, for then Stage adds nothing.
   */
  lemma CompletedStageTakesEffect(snap: Snapshot, s: StageRequest, now: string, completed: set<string>, name: string)
    requires Published(snap) && s.operationId != "" && s.operationId in completed
    requires StageSucceeds(snap, s, now) && name in s.ops
    ensures var held := OwnHolder(snap, s, name);
            Allows(LeftByStage(snap, s, now), s.identity, completed, s.addonId, name) <==>
            if held.Some? then held.value in completed else !AlreadyStaged(snap, s)
  {
    hide Holder, Published, StagedBy;
    if Effect(Stage(s), snap, now).Some? {
      WrittenStageTakesEffect(snap, s, now, completed, name);
    } else {
      SilentStage(snap, s, now, completed, name);
    }
  }

  lemma WrittenStageTakesEffect(snap: Snapshot, s: StageRequest, now: string, completed: set<string>, name: string)
    requires Published(snap) && s.operationId != "" && s.operationId in completed
    requires Effect(Stage(s), snap, now).Some? && name in s.ops
    ensures !AlreadyStaged(snap, s)
    ensures Allows(Effect(Stage(s), snap, now).value, s.identity, completed, s.addonId, name) <==>
            (OwnHolder(snap, s, name).Some? ==> OwnHolder(snap, s, name).value in completed)
  {
    NotYetStaged(snap, s, now);
    hide Effect, Holder;
    StageHolders(snap, s, now, s.addonId, name);
    StagedEntry(snap, s, now, Effect(Stage(s), snap, now).value);
    EffectPublishes(Stage(s), snap, now);
    PublishedEntries(snap, s.addonId, name);
    PublishedEntries(Effect(Stage(s), snap, now).value, s.addonId, name);
  }

  lemma NotYetStaged(snap: Snapshot, s: StageRequest, now: string)
    requires Effect(Stage(s), snap, now).Some?
    ensures !AlreadyStaged(snap, s)
  {
    hide Apply, NewOps, StagedBy;
  }

  /** A Stage that writes nothing: the operation is recorded already, or every name is held. */
  lemma SilentStage(snap: Snapshot, s: StageRequest, now: string, completed: set<string>, name: string)
    requires Published(snap) && PlanStage(snap, s, now).Done? && name in s.ops
    ensures Allows(snap, s.identity, completed, s.addonId, name) <==>
            OwnHolder(snap, s, name).Some? && OwnHolder(snap, s, name).value in completed
    ensures OwnHolder(snap, s, name).Some? || AlreadyStaged(snap, s)
  {
    hide NewOps, StagedBy, Find, Published;
    PublishedEntries(snap, s.addonId, name);
    if !AlreadyStaged(snap, s) {
      var start := StartingEntry(Entry(snap, s.addonId), s);
      var isNew := !Continues(Entry(snap, s.addonId), s);
      NewOpsNames(s, start.ops, isNew, now, s.ops);
      assert HasName(start.ops, name);
      FindIff(start.ops, name);
    }
  }

  /** A hint grants nothing: two documents that differ in their hints allow the same. */
  lemma HintsGrantNothing(snap: Snapshot, hints: map<string, seq<string>>, completed: set<string>)
    ensures SameAllowed(snap, snap.(hints := hints), completed)
  {
    forall identity, id, name
      ensures Allows(snap, identity, completed, id, name) <==> Allows(snap.(hints := hints), identity, completed, id, name)
    {
      assert Holder(snap.(hints := hints), id, name) == Holder(snap, id, name);
    }
  }

  // ---------- These things happen ----------

  /** A request of one operation for add-on "a". */
  function Ask(identity: string, operationId: string): StageRequest {
    StageRequest("a", identity, 0, operationId, false, "", ["a.b"], 0, "", None)
  }

  function Asked(identity: string, operationId: string): AddonGrants {
    AddonGrants(identity, 0, operationId, [OpGrant("a.b", Install, "", "", "", 0, "")])
  }

  /** The document with the one entry. */
  function Doc(revision: nat, identity: string, operationId: string): Snapshot {
    Snapshot(revision, 0, map["a" := Asked(identity, operationId)], map[])
  }

  predicate Short(identity: string, operationId: string) {
    identity in {"A", "B"} && operationId in {"1", "2"}
  }

  lemma NameIsValid()
    ensures IsOpName("a.b") && IsAddonId("a") && ValidText("")
  {
    assert "a.b"[1] == '.';
  }

  lemma TextIsValid(c: char)
    requires 'A' <= c <= 'Z' || '0' <= c <= '9'
    ensures ValidText([c]) && ValidOperationId([c])
  {
  }

  lemma DocPublished(revision: nat, identity: string, operationId: string)
    requires Short(identity, operationId)
    ensures Published(Doc(revision, identity, operationId))
  {
    hide IsOpName, IsAddonId, ValidText, ValidOperationId;
    NameIsValid();
    TextIsValid(identity[0]);
    TextIsValid(operationId[0]);
    assert identity == [identity[0]] && operationId == [operationId[0]];
    var d, op := Doc(revision, identity, operationId), OpGrant("a.b", Install, "", "", "", 0, "");
    assert Asked(identity, operationId).ops == [op];
    assert ValidOp(op, 0);
    assert |d.grants.Keys| == 1;
    assert ValidEntry("a", d.grants["a"], 0);
  }

  /** The empty document, or one whose only entry is of another identity. */
  predicate Foreign(snap: Snapshot, identity: string) {
    && snap == Snapshot(snap.revision, 0, snap.grants, map[]) && snap.grants.Keys <= {"a"}
    && ("a" in snap.grants ==> snap.grants["a"].identity != identity)
  }

  lemma AskedPlan(before: Snapshot, identity: string, operationId: string)
    requires Foreign(before, identity)
    ensures PlanStage(before, Ask(identity, operationId), "") == Write(Patch(map["a" := Some(Asked(identity, operationId))], map[]))
  {
    hide StagedBy;
    var s := Ask(identity, operationId);
    assert ["a.b"][..0] == [];
    assert NewOps(s, [], true, "", ["a.b"]) == Asked(identity, operationId).ops;
    assert [] + Asked(identity, operationId).ops == Asked(identity, operationId).ops;
  }

  lemma AskedApplies(before: Snapshot, identity: string, operationId: string)
    requires Short(identity, operationId) && Foreign(before, identity)
    ensures Apply(before, Patch(map["a" := Some(Asked(identity, operationId))], map[])) == Some(Doc(before.revision, identity, operationId))
  {
    hide Normalize, ValidSnapshot, Published;
    var d := Doc(before.revision, identity, operationId);
    DocPublished(before.revision, identity, operationId);
    NormalForm(d);
    PublishedIsValid(d);
    assert PatchedGrants(before.grants, map["a" := Some(Asked(identity, operationId))]) == d.grants;
    assert PatchedHints(before.hints, map[]) == d.hints;
  }

  /** Staging on the empty document, or over an entry of another identity, commits. */
  lemma StageCommits(before: Snapshot, identity: string, operationId: string)
    requires Short(identity, operationId) && Foreign(before, identity)
    ensures Effect(Stage(Ask(identity, operationId)), before, "") == Some(Doc(before.revision + 1, identity, operationId))
  {
    hide Apply, PlanStage;
    AskedPlan(before, identity, operationId);
    AskedApplies(before, identity, operationId);
  }

  lemma DocHolds(revision: nat, identity: string, operationId: string)
    ensures Holder(Doc(revision, identity, operationId), "a", "a.b") == Some(operationId)
  {
  }

  /**
   Operation 1 of package A completes; staging operation 2 for package B takes the working
   grant away at once, and aborting operation 2 leaves nothing.
   */
  lemma WorkingGrantIsLost()
    ensures Effect(Stage(Ask("A", "1")), Empty, "") == Some(Doc(1, "A", "1"))
    ensures Effect(Stage(Ask("B", "2")), Doc(1, "A", "1"), "") == Some(Doc(2, "B", "2"))
    ensures Allows(Doc(1, "A", "1"), "A", {"1"}, "a", "a.b") && !Allows(Doc(2, "B", "2"), "A", {"1"}, "a", "a.b")
    ensures !NothingToLose(Doc(1, "A", "1"), Ask("B", "2"), {"1"})
    ensures var end := Effect(Abort("2"), Doc(2, "B", "2"), "");
            end.Some? && OpsOf(end.value, "a") == [] && OpsOf(Doc(1, "A", "1"), "a") != []
  {
    hide Effect, Holder, Published;
    StageCommits(Empty, "A", "1");
    StageCommits(Doc(1, "A", "1"), "B", "2");
    DocHolds(1, "A", "1");
    DocHolds(2, "B", "2");
    DocPublished(1, "A", "1");
    NotWaitingFor("2");
    AbortEffect(Doc(1, "A", "1"), Ask("B", "2"), "", Doc(2, "B", "2"), "");
    assert LeftByAbort(Doc(1, "A", "1"), Ask("B", "2")) == None;
  }

  lemma NotWaitingFor(operationId: string)
    requires operationId != "1"
    ensures Unused(Doc(1, "A", "1"), operationId)
  {
  }

  /**
   Operation 1 is pending; staging operation 2 for the same package reports success and
   writes nothing, and when operation 2 completes the grant still does not work.
   */
  lemma SuccessWithoutEffect()
    ensures PlanStage(Doc(1, "A", "1"), Ask("A", "2"), "") == Done
    ensures !Allows(LeftByStage(Doc(1, "A", "1"), Ask("A", "2"), ""), "A", {"2"}, "a", "a.b")
  {
    var d, s := Doc(1, "A", "1"), Ask("A", "2");
    assert ["a.b"][..0] == [];
    assert HasName(d.grants["a"].ops, "a.b") by { assert d.grants["a"].ops[0].name == "a.b"; }
    assert NewOps(s, d.grants["a"].ops, false, "", ["a.b"]) == [];
    DocHolds(1, "A", "1");
  }
}
