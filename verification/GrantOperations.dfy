/**
 What one transaction on the grant document does: the patch that `Stage`, `Abort`,
 `Remove`, `Reconcile` and the administrator's `Configure` build, and its effect.
 */
module GrantOperations {
  import opened Basics
  import opened Sorting
  import opened GrantDocument

  datatype StageRequest = StageRequest(
    addonId: string, identity: string, generation: nat, operationId: string, upgrade: bool,
    version: string, ops: seq<string>, expectedRevision: nat, actor: string,
    blanket: Option<nat>)  // the revision that the blanket tag names, if there is one

  /** What an administrator changes of the blanket switch and the deny lists. */
  datatype Settings = Settings(revokeBlanket: bool, blanket: Option<Switch>, deny: Option<map<string, seq<string>>>)

  /** The four lifecycle calls, and an administrator's edit at the revision that the page showed. */
  datatype Call =
    | Stage(request: StageRequest)
    | Abort(operationId: string)
    | Remove(addonId: string, keepHint: bool)
    | Reconcile(installed: map<string, string>, completed: set<string>)
    | Configure(settings: Settings, expected: nat, editId: string)

  /** A transaction ends without a write, is refused as stale, or writes a patch. */
  datatype Outcome = Done | Stale | Write(patch: Patch)

  // ---------- The planners ----------

  function StageSource(s: StageRequest): Source {
    if s.blanket.Some? && s.blanket.value != 0 then Blanket else if s.upgrade then Upgrade else Install
  }

  predicate Continues(prev: Option<AddonGrants>, s: StageRequest) {
    prev.Some? && prev.value.ops != [] && prev.value.identity == s.identity
  }

  /** The entry Stage starts from: the present one of the same identity, else a new one. */
  function StartingEntry(prev: Option<AddonGrants>, s: StageRequest): AddonGrants {
    if Continues(prev, s) then AddonGrants(s.identity, s.generation, prev.value.operationId, prev.value.ops)
    else AddonGrants(s.identity, s.generation, s.operationId, [])
  }

  function NewOp(s: StageRequest, isNew: bool, now: string, name: string): OpGrant {
    OpGrant(name, StageSource(s), now, s.actor, s.version,
            if s.blanket.Some? then s.blanket.value else 0, if isNew then "" else s.operationId)
  }

  /** The grants for the requested names that `have` lacks, in the order of the request. */
  function NewOps(s: StageRequest, have: seq<OpGrant>, isNew: bool, now: string, names: seq<string>): seq<OpGrant> {
    if names == [] then []
    else
      var last := names[|names| - 1];
      NewOps(s, have, isNew, now, names[..|names| - 1])
      + if HasName(have, last) then [] else [NewOp(s, isNew, now, last)]
  }

  predicate StagedBy(e: AddonGrants, operationId: string) {
    exists op | op in e.ops :: EffectiveOperationId(e, op) == operationId
  }

  function Entry(snap: Snapshot, id: string): Option<AddonGrants> {
    if id in snap.grants then Some(snap.grants[id]) else None
  }

  function PlanStage(snap: Snapshot, s: StageRequest, now: string): Outcome {
    var prev := Entry(snap, s.addonId);
    if prev.Some? && prev.value.identity == s.identity && StagedBy(prev.value, s.operationId) then Done
    else if s.expectedRevision != 0 && s.expectedRevision != snap.revision then Stale
    else if s.blanket.Some? && s.blanket.value != snap.blanketRevision then Stale
    else
      var start := StartingEntry(prev, s);
      var added := NewOps(s, start.ops, !Continues(prev, s), now, s.ops);
      if added == [] then Done
      else Write(Patch(map[s.addonId := Some(start.(ops := start.ops + added))], map[]))
  }

  function NotBy(e: AddonGrants, operationId: string): OpGrant -> bool {
    op => EffectiveOperationId(e, op) != operationId
  }

  function Completed(e: AddonGrants, completed: set<string>): OpGrant -> bool {
    op => EffectiveOperationId(e, op) in completed
  }

  /** The entry with only the kept grants; none is left when no grant is. */
  function Trimmed(e: AddonGrants, keep: OpGrant -> bool): Option<AddonGrants> {
    var kept := Filter(keep, e.ops);
    if kept == [] then None else Some(e.(ops := kept))
  }

  function PlanAbort(snap: Snapshot, operationId: string): Outcome {
    var addons := map id | id in snap.grants && StagedBy(snap.grants[id], operationId) ::
                    Trimmed(snap.grants[id], NotBy(snap.grants[id], operationId));
    if addons == map[] then Done else Write(Patch(addons, map[]))
  }

  function PlanRemove(snap: Snapshot, addonId: string, keepHint: bool): Outcome {
    var had, hinted := addonId in snap.grants, addonId in snap.hints;
    if !had && !(hinted && !keepHint) then Done
    else
      var names := if had then Names(snap.grants[addonId].ops) else [];
      Write(Patch(map[addonId := None],
                  if keepHint && names != [] then map[addonId := names]
                  else if hinted then map[addonId := []]
                  else map[]))
  }

  predicate Matches(id: string, e: AddonGrants, installed: map<string, string>) {
    id in installed && installed[id] == e.identity
  }

  predicate KeptWhole(id: string, e: AddonGrants, installed: map<string, string>, completed: set<string>) {
    Matches(id, e, installed) && forall op | op in e.ops :: EffectiveOperationId(e, op) in completed
  }

  function PlanReconcile(snap: Snapshot, installed: map<string, string>, completed: set<string>): Outcome {
    var addons := map id | id in snap.grants && !KeptWhole(id, snap.grants[id], installed, completed) ::
                    if Matches(id, snap.grants[id], installed)
                    then Trimmed(snap.grants[id], Completed(snap.grants[id], completed))
                    else None;
    if addons == map[] then Done else Write(Patch(addons, map[]))
  }

  function Plan(c: Call, snap: Snapshot, now: string): Outcome {
    match c
    case Stage(s) => PlanStage(snap, s, now)
    case Abort(op) => PlanAbort(snap, op)
    case Remove(id, keep) => PlanRemove(snap, id, keep)
    case Reconcile(installed, completed) => PlanReconcile(snap, installed, completed)
    case Configure(t, _, _) => Write(Patch(map[], map[], t.revokeBlanket, t.blanket, t.deny))
  }

  /** The state that call c publishes when it runs alone on snap; None when it publishes nothing. */
  function Effect(c: Call, snap: Snapshot, now: string): Option<Snapshot> {
    match Plan(c, snap, now)
    case Write(patch) =>
      (match Apply(snap, patch)
       case Some(next) => Some(next.(revision := snap.revision + 1))
       case None => None)
    case _ => None
  }

  lemma EffectPublishes(c: Call, snap: Snapshot, now: string)
    requires Effect(c, snap, now).Some?
    ensures Published(Effect(c, snap, now).value)
    ensures Effect(c, snap, now).value.revision == snap.revision + 1
    ensures !c.Configure? ==> Effect(c, snap, now).value.blanketRevision == snap.blanketRevision
  {
    ApplyPublishes(snap, Plan(c, snap, now).patch);
  }

  // ---------- What Stage adds ----------

  lemma {:induction false} NewOpsNames(s: StageRequest, have: seq<OpGrant>, isNew: bool, now: string, names: seq<string>)
    ensures var added := NewOps(s, have, isNew, now, names);
            && (forall i | 0 <= i < |added| :: added[i] == NewOp(s, isNew, now, added[i].name)
                                              && added[i].name in names && !HasName(have, added[i].name))
            && (forall n | n in names && !HasName(have, n) :: NewOp(s, isNew, now, n) in added)
  {
    if names != [] {
      var front, last := names[..|names| - 1], names[|names| - 1];
      NewOpsNames(s, have, isNew, now, front);
      assert names == front + [last];
      var added0 := NewOps(s, have, isNew, now, front);
      var added := NewOps(s, have, isNew, now, names);
      forall n | n in names && !HasName(have, n) ensures NewOp(s, isNew, now, n) in added {
        if n != last {
          assert n in front;
        } else {
          assert added[|added| - 1] == NewOp(s, isNew, now, last);
        }
      }
    }
  }

  // ---------- When Stage writes, and what ----------

  /** An earlier Stage of the operation is recorded: a grant of the package's entry waits for it, by its own ID or by that of the entry. */
  predicate Recorded(snap: Snapshot, s: StageRequest) {
    && s.addonId in snap.grants && snap.grants[s.addonId].identity == s.identity
    && var e := snap.grants[s.addonId];
       exists i | 0 <= i < |e.ops| :: (if e.ops[i].operationId == "" then e.operationId else e.ops[i].operationId) == s.operationId
  }

  /** The package holds the name already, whatever operation it waits for. */
  predicate HeldByPackage(snap: Snapshot, s: StageRequest, name: string) {
    && s.addonId in snap.grants && snap.grants[s.addonId].identity == s.identity
    && exists i | 0 <= i < |snap.grants[s.addonId].ops| :: snap.grants[s.addonId].ops[i].name == name
  }

  /** What the request claims about the document: its revision, unless that is 0, and the switch its blanket tag names. */
  predicate ClaimsHold(snap: Snapshot, s: StageRequest) {
    && (s.expectedRevision != 0 ==> s.expectedRevision == snap.revision)
    && (s.blanket.Some? ==> s.blanket.value == snap.blanketRevision)
  }

  /**
   What Stage answers, for every request and document.  A request whose operation is
   recorded is done, before anything else is looked at; then it is stale exactly when
   a claim does not hold; then it is done exactly when the package holds every name.
   */
  lemma StageDecides(snap: Snapshot, s: StageRequest, now: string)
    ensures Plan(Stage(s), snap, now) == Stale <==> !Recorded(snap, s) && !ClaimsHold(snap, s)
    ensures Plan(Stage(s), snap, now) == Done <==>
              Recorded(snap, s)
              || (ClaimsHold(snap, s) && forall k | 0 <= k < |s.ops| :: HeldByPackage(snap, s, s.ops[k]))
  {
    hide NewOps, HasName;
    var prev := Entry(snap, s.addonId);
    RecordedIsStaged(snap, s);
    var start := StartingEntry(prev, s);
    var added := NewOps(s, start.ops, !Continues(prev, s), now, s.ops);
    NewOpsNames(s, start.ops, !Continues(prev, s), now, s.ops);
    forall name ensures HasName(start.ops, name) <==> HeldByPackage(snap, s, name) {
      HeldIsHad(snap, s, name);
    }
    if added != [] {
      assert added[0].name in s.ops && !HasName(start.ops, added[0].name);
      var k :| 0 <= k < |s.ops| && s.ops[k] == added[0].name;
      assert !HeldByPackage(snap, s, s.ops[k]);
    } else {
      forall k | 0 <= k < |s.ops| ensures HeldByPackage(snap, s, s.ops[k]) {
        assert s.ops[k] in s.ops;
      }
    }
  }

  lemma RecordedIsStaged(snap: Snapshot, s: StageRequest)
    ensures var prev := Entry(snap, s.addonId);
            prev.Some? && prev.value.identity == s.identity && StagedBy(prev.value, s.operationId) <==> Recorded(snap, s)
  {
    if Recorded(snap, s) {
      var e := snap.grants[s.addonId];
      var i :| 0 <= i < |e.ops| && (if e.ops[i].operationId == "" then e.operationId else e.ops[i].operationId) == s.operationId;
      assert e.ops[i] in e.ops && EffectiveOperationId(e, e.ops[i]) == s.operationId;
    }
  }

  lemma HeldIsHad(snap: Snapshot, s: StageRequest, name: string)
    ensures HasName(StartingEntry(Entry(snap, s.addonId), s).ops, name) <==> HeldByPackage(snap, s, name)
  {
  }

  /** A Stage that commits was planned against the document it commits on. */
  lemma CommittedStageHonoursClaims(snap: Snapshot, s: StageRequest, now: string)
    requires Effect(Stage(s), snap, now).Some?
    ensures s.expectedRevision == 0 || s.expectedRevision == snap.revision
    ensures s.blanket.Some? ==> s.blanket.value == snap.blanketRevision
  {
    hide Apply, NewOps, StagedBy;
  }

  /** The grants of an entry that hold the name, for a published snapshot: at most one. */
  function Find(ops: seq<OpGrant>, name: string): Option<OpGrant> {
    if ops == [] then None
    else if ops[0].name == name then Some(ops[0])
    else Find(ops[1..], name)
  }

  lemma {:induction false} FindIff(ops: seq<OpGrant>, name: string)
    ensures Find(ops, name).Some? <==> HasName(ops, name)
    ensures Find(ops, name).Some? ==> Find(ops, name).value in ops && Find(ops, name).value.name == name
  {
    if ops != [] {
      FindIff(ops[1..], name);
      if HasName(ops, name) && ops[0].name != name {
        var i :| 0 <= i < |ops| && ops[i].name == name;
        assert ops[1..][i - 1].name == name;
      }
    }
  }

  lemma FindUnique(ops: seq<OpGrant>, op: OpGrant)
    requires DistinctKeys(NameOf, ops) && op in ops
    ensures Find(ops, op.name) == Some(op)
  {
    FindIff(ops, op.name);
    var i :| 0 <= i < |ops| && ops[i] == op;
    assert NameOf(ops[i]) == op.name;
    var f := Find(ops, op.name).value;
    var j :| 0 <= j < |ops| && ops[j] == f;
    assert NameOf(ops[j]) == op.name;
  }

  /** The operation whose completion the grant of `name` waits for; None when it is not held. */
  function Holder(snap: Snapshot, id: string, name: string): Option<string> {
    if id !in snap.grants then None
    else
      match Find(snap.grants[id].ops, name)
      case Some(op) => Some(EffectiveOperationId(snap.grants[id], op))
      case None => None
  }

  function HolderAfterStage(snap: Snapshot, s: StageRequest, id: string, name: string): Option<string> {
    if id != s.addonId then Holder(snap, id, name)
    else if Continues(Entry(snap, id), s) && Holder(snap, id, name).Some? then Holder(snap, id, name)
    else if name in s.ops then Some(s.operationId)
    else None
  }

  /**
   The effect of a committed Stage, name by name.  A name the continued entry
   lacks is held by the operation of the request; every other grant of an entry
   that continues keeps its holder; an entry of another identity is forgotten.
   */
  lemma StageHolders(snap: Snapshot, s: StageRequest, now: string, id: string, name: string)
    requires Published(snap) && s.operationId != ""
    requires Effect(Stage(s), snap, now).Some?
    ensures Holder(Effect(Stage(s), snap, now).value, id, name) == HolderAfterStage(snap, s, id, name)
  {
    hide Find, Sort, NewOps, Apply, PlanAbort, PlanRemove, PlanReconcile;
    if id == s.addonId {
      StageEntryHolders(snap, s, now, name);
    } else {
      ApplyEntry(snap, PlanStage(snap, s, now).patch, id);
    }
  }

  lemma StageEntryHolders(snap: Snapshot, s: StageRequest, now: string, name: string)
    requires Published(snap) && s.operationId != ""
    requires Effect(Stage(s), snap, now).Some?
    ensures Holder(Effect(Stage(s), snap, now).value, s.addonId, name) == HolderAfterStage(snap, s, s.addonId, name)
  {
    hide Find, Sort, NewOps, Apply, PlanAbort, PlanRemove, PlanReconcile;
    var prev := Entry(snap, s.addonId);
    var isNew := !Continues(prev, s);
    var start := StartingEntry(prev, s);
    var added := NewOps(s, start.ops, isNew, now, s.ops);
    var after := Effect(Stage(s), snap, now).value;
    ApplyEntry(snap, PlanStage(snap, s, now).patch, s.addonId);
    EffectPublishes(Stage(s), snap, now);
    NewOpsFind(s, start.ops, isNew, now, s.ops, name);
    FindInMerged(start.ops, added, name);
    FindIff(start.ops, name);
  }

  lemma NewOpsFind(s: StageRequest, have: seq<OpGrant>, isNew: bool, now: string, names: seq<string>, name: string)
    ensures Find(NewOps(s, have, isNew, now, names), name) ==
            if name in names && !HasName(have, name) then Some(NewOp(s, isNew, now, name)) else None
  {
    var added := NewOps(s, have, isNew, now, names);
    NewOpsNames(s, have, isNew, now, names);
    FindIff(added, name);
    if Find(added, name).Some? {
      var i :| 0 <= i < |added| && added[i] == Find(added, name).value;
    }
  }

  lemma FindInMerged(a: seq<OpGrant>, b: seq<OpGrant>, name: string)
    requires StrictlySorted(NameOf, Sort(NameOf, a + b))
    ensures Find(Sort(NameOf, a + b), name) == if HasName(a, name) then Find(a, name) else Find(b, name)
  {
    hide Find;
    var ops := Sort(NameOf, a + b);
    StrictlySortedFacts(NameOf, ops);
    FindIff(a, name);
    FindIff(b, name);
    FindIff(ops, name);
    InMerged(a, b);
    if HasName(a, name) {
      FindUnique(ops, Find(a, name).value);
    } else if HasName(b, name) {
      FindUnique(ops, Find(b, name).value);
    }
  }

  lemma InMerged(a: seq<OpGrant>, b: seq<OpGrant>)
    ensures forall op: OpGrant :: op in Sort(NameOf, a + b) <==> op in a || op in b
  {
    SortContents(NameOf, a + b);
    forall op: OpGrant ensures op in Sort(NameOf, a + b) <==> op in a || op in b {
      assert op in Sort(NameOf, a + b) <==> op in multiset(Sort(NameOf, a + b));
      assert op in a + b <==> op in multiset(a + b);
    }
  }

  /** Dropping grants by their holder, in one entry. */
  lemma TrimmedHolders(e: AddonGrants, keep: OpGrant -> bool, name: string)
    requires StrictlySorted(NameOf, e.ops)
    ensures var f, k := Find(e.ops, name), Find(Filter(keep, e.ops), name);
            k == if f.Some? && keep(f.value) then f else None
    ensures Sort(NameOf, Filter(keep, e.ops)) == Filter(keep, e.ops)
  {
    var kept := Filter(keep, e.ops);
    FilterStrictlySorted(NameOf, keep, e.ops);
    StrictlySortedFacts(NameOf, kept);
    StrictlySortedFacts(NameOf, e.ops);
    SortOfSorted(NameOf, kept);
    FilterContents(keep, e.ops);
    FindIff(e.ops, name);
    FindIff(kept, name);
    if Find(kept, name).Some? {
      var k := Find(kept, name).value;
      var i :| 0 <= i < |kept| && kept[i] == k;
      FindUnique(e.ops, k);
    }
  }

  /**
   An administrator who revokes what the blanket switch granted takes exactly those
   grants: every other grant keeps its record and its holder.
   */
  lemma RevokeTakesBlanketGrants(base: Snapshot, p: Patch, id: string, name: string)
    requires Published(base) && p.revokeBlanket && id !in p.addons && Apply(base, p).Some?
    ensures var after := Apply(base, p).value;
            var op := if id in base.grants then Find(base.grants[id].ops, name) else None;
            Holder(after, id, name) == if op.Some? && op.value.source == Blanket then None else Holder(base, id, name)
  {
    hide Apply, Find, Filter;
    ApplyEntry(base, p, id);
    if id in base.grants {
      var e := base.grants[id];
      TrimmedHolders(e, NotBlanket, name);
      FindIff(e.ops, name);
      FindIff(Filter(NotBlanket, e.ops), name);
    }
  }
}
