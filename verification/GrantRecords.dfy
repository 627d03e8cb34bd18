/**
 What the four calls leave in the document, record by record, and which of their
 planned writes the document refuses.
 */
module GrantRecords {
  import opened Basics
  import opened Text
  import opened Sorting
  import opened GrantDocument
  import opened GrantOperations
  import opened GrantPending

  /** What a call makes of the blanket switch and the deny lists: only an edit changes them. */
  predicate SettingsAfter(c: Call, snap: Snapshot, after: Snapshot) {
    var switch := if c.Configure? && c.settings.blanket.Some? then c.settings.blanket.value else snap.blanket;
    && after.blanket == switch
    && after.deny == (if c.Configure? && c.settings.deny.Some? then c.settings.deny.value else snap.deny)
    && after.revision == snap.revision + 1
    && after.blanketRevision ==
       if switch.mode != snap.blanket.mode || switch.includeOptional != snap.blanket.includeOptional
       then snap.blanketRevision + 1 else snap.blanketRevision
  }

  // ---------- Stage ----------

  /** The document has an entry of the package that the request is for. */
  predicate OfPackage(snap: Snapshot, s: StageRequest) {
    s.addonId in snap.grants && snap.grants[s.addonId].identity == s.identity
  }

  /** The record of a grant that the request adds. */
  predicate IsNewGrant(snap: Snapshot, s: StageRequest, now: string, op: OpGrant) {
    && op.name in s.ops && !HeldByPackage(snap, s, op.name)
    && op.at == now && op.actor == s.actor && op.version == s.version
    && op.blanketRevision == (if s.blanket.Some? then s.blanket.value else 0)
    && (op.source == Blanket <==> op.blanketRevision != 0)
    && (op.source != Blanket ==> op.source == if s.upgrade then Upgrade else Install)
    && op.operationId == if OfPackage(snap, s) then s.operationId else ""
  }

  /**
   A committed Stage, record by record: the entry is of the package and generation
   asked for, every grant of the package keeps its record, every other grant of the
   entry is one that the request adds, and nothing else of the document changes.
   */
  lemma StagedRecords(snap: Snapshot, s: StageRequest, now: string, op: OpGrant)
    requires Published(snap) && Effect(Stage(s), snap, now).Some?
    ensures var after := Effect(Stage(s), snap, now).value;
            && SettingsAfter(Stage(s), snap, after) && after.hints == snap.hints
            && after.grants.Keys == snap.grants.Keys + {s.addonId}
            && (forall id | id in snap.grants && id != s.addonId :: after.grants[id] == snap.grants[id])
    ensures var e := Effect(Stage(s), snap, now).value.grants[s.addonId];
            && e.identity == s.identity && e.generation == s.generation
            && e.operationId == (if OfPackage(snap, s) then snap.grants[s.addonId].operationId else s.operationId)
            && (op in e.ops <==> (OfPackage(snap, s) && op in snap.grants[s.addonId].ops) || IsNewGrant(snap, s, now, op))
  {
    hide Effect, NewOps, Sort, Published;
    var prev := Entry(snap, s.addonId);
    var start := StartingEntry(prev, s);
    StagedEntry(snap, s, now, Effect(Stage(s), snap, now).value);
    CallSettings(Stage(s), snap, now);
    PublishedEntries(snap, s.addonId, "");
    InMerged(start.ops, NewOps(s, start.ops, !Continues(prev, s), now, s.ops));
    AddedRecords(snap, s, now, op);
  }

  lemma AddedRecords(snap: Snapshot, s: StageRequest, now: string, op: OpGrant)
    requires Published(snap)
    ensures var prev := Entry(snap, s.addonId);
            op in NewOps(s, StartingEntry(prev, s).ops, !Continues(prev, s), now, s.ops) <==> IsNewGrant(snap, s, now, op)
  {
    hide NewOps, Published;
    var prev := Entry(snap, s.addonId);
    var isNew := !Continues(prev, s);
    var added := NewOps(s, StartingEntry(prev, s).ops, isNew, now, s.ops);
    PublishedEntries(snap, s.addonId, "");
    NewOpsNames(s, StartingEntry(prev, s).ops, isNew, now, s.ops);
    HeldIsHad(snap, s, op.name);
    if op in added {
      var i :| 0 <= i < |added| && added[i] == op;
    }
    if IsNewGrant(snap, s, now, op) {
      assert op == NewOp(s, isNew, now, op.name);
    }
  }

  // ---------- When the document refuses a Stage ----------

  /** The requested names that the package lacks, in order. */
  function NewNames(snap: Snapshot, s: StageRequest): seq<string> {
    Filter((name: string) => !HeldByPackage(snap, s, name), s.ops)
  }

  /** How many grants the package holds. */
  function HeldCount(snap: Snapshot, s: StageRequest): nat {
    if OfPackage(snap, s) then |snap.grants[s.addonId].ops| else 0
  }

  /** The request keeps the document within its rules. */
  predicate Fits(snap: Snapshot, s: StageRequest) {
    && (s.addonId !in snap.grants ==> IsAddonId(s.addonId) && |snap.grants| < 128)
    && s.identity != "" && ValidText(s.identity) && ValidOperationId(s.operationId)
    && ValidText(s.actor) && ValidText(s.version)
    && (forall k | 0 <= k < |NewNames(snap, s)| :: IsOpName(NewNames(snap, s)[k]))
    && (forall j, k | 0 <= j < k < |NewNames(snap, s)| :: NewNames(snap, s)[j] != NewNames(snap, s)[k])
    && HeldCount(snap, s) + |NewNames(snap, s)| <= 32
  }

  lemma {:induction false} AddedNames(snap: Snapshot, s: StageRequest, isNew: bool, now: string, names: seq<string>)
    ensures Names(NewOps(s, StartingEntry(Entry(snap, s.addonId), s).ops, isNew, now, names))
            == Filter((name: string) => !HeldByPackage(snap, s, name), names)
  {
    if names != [] {
      var front, last := names[..|names| - 1], names[|names| - 1];
      AddedNames(snap, s, isNew, now, front);
      HeldIsHad(snap, s, last);
      hide HeldByPackage, HasName, StartingEntry, Entry;
    }
  }

  lemma WithGrants(grants: map<string, AddonGrants>, id: string, entry: AddonGrants)
    ensures PatchedGrants(grants, map[id := Some(entry)]) == grants[id := entry]
  {
    var a, b := PatchedGrants(grants, map[id := Some(entry)]), grants[id := entry];
    assert forall k :: k in a <==> k in grants || k == id;
    assert forall k :: k in b <==> k in grants || k == id;
  }

  function InOrder(entry: AddonGrants): AddonGrants {
    entry.(ops := Sort(NameOf, entry.ops))
  }

  /** Normalizing a published document with one entry replaced sorts that entry. */
  lemma NormalWith(snap: Snapshot, id: string, entry: AddonGrants)
    requires Normalize(snap) == snap
    ensures Normalize(snap.(grants := snap.grants[id := entry])) == snap.(grants := snap.grants[id := InOrder(entry)])
  {
    hide Sort;
    var a, b := Normalize(snap.(grants := snap.grants[id := entry])).grants, snap.grants[id := InOrder(entry)];
    assert Normalize(snap).grants == snap.grants && Normalize(snap).hints == snap.hints;
    forall k | k in b ensures k in a && a[k] == b[k] {
      assert k != id ==> Normalize(snap).grants[k] == snap.grants[k];
    }
    assert a == b;
  }

  lemma OneEntryValid(snap: Snapshot, id: string, entry: AddonGrants)
    requires ValidSnapshot(snap)
    ensures ValidSnapshot(snap.(grants := snap.grants[id := entry])) <==>
            ValidEntry(id, entry, snap.blanketRevision) && (id !in snap.grants ==> |snap.grants| < 128)
  {
    hide ValidEntry, ValidHint, ValidSettings;
    var next := snap.(grants := snap.grants[id := entry]);
    SizeWith(snap.grants, id, entry);
    SameSettings(snap, next);
    if ValidSnapshot(next) {
      assert id in next.grants;
    }
  }

  /** Stage writes one entry; the document takes it if the entry is valid and there is room for it. */
  lemma EntryApplies(snap: Snapshot, id: string, entry: AddonGrants)
    requires Published(snap)
    ensures Apply(snap, Patch(map[id := Some(entry)], map[])).Some? <==>
            ValidEntry(id, InOrder(entry), snap.blanketRevision) && (id !in snap.grants ==> |snap.grants| < 128)
  {
    hide ValidEntry, InOrder, Normalize, Published, ValidSnapshot, PatchedHints, PatchedGrants;
    NormalForm(snap);
    PublishedIsValid(snap);
    SameHints(snap.hints);
    WithGrants(snap.grants, id, entry);
    NormalWith(snap, id, entry);
    OneEntryValid(snap, id, InOrder(entry));
  }

  /** What is valid of a list of grants: distinct names and every record by itself. */
  predicate ValidOps(ops: seq<OpGrant>, blanketRevision: nat) {
    DistinctKeys(NameOf, ops) && forall op | op in ops :: ValidOp(op, blanketRevision)
  }

  /** Adding grants under names that a valid list lacks. */
  lemma ValidMerge(a: seq<OpGrant>, b: seq<OpGrant>, blanketRevision: nat)
    requires ValidOps(a, blanketRevision) && forall i | 0 <= i < |b| :: !HasName(a, b[i].name)
    ensures ValidOps(Sort(NameOf, a + b), blanketRevision) <==> ValidOps(b, blanketRevision)
    ensures |Sort(NameOf, a + b)| == |a| + |b|
  {
    hide Sort, ValidOp;
    SortDistinct(NameOf, a + b);
    SortContents(NameOf, a + b);
    InMerged(a, b);
    if DistinctKeys(NameOf, a + b) {
      forall i, j | 0 <= i < j < |b| ensures NameOf(b[i]) != NameOf(b[j]) {
        assert (a + b)[|a| + i] == b[i] && (a + b)[|a| + j] == b[j];
      }
    }
  }

  /** The records that Stage adds are valid if their names are, and the texts of the request. */
  lemma ValidAdded(snap: Snapshot, s: StageRequest, isNew: bool, now: string)
    requires s.operationId != "" && ClaimsHold(snap, s)
    requires NewNames(snap, s) != []
    ensures var added := NewOps(s, StartingEntry(Entry(snap, s.addonId), s).ops, isNew, now, s.ops);
            && |added| == |NewNames(snap, s)|
            && (ValidOps(added, snap.blanketRevision) <==>
                  && ValidText(s.actor) && ValidText(s.version) && (isNew || ValidOperationId(s.operationId))
                  && (forall k | 0 <= k < |NewNames(snap, s)| :: IsOpName(NewNames(snap, s)[k]))
                  && forall j, k | 0 <= j < k < |NewNames(snap, s)| :: NewNames(snap, s)[j] != NewNames(snap, s)[k])
  {
    var have := StartingEntry(Entry(snap, s.addonId), s).ops;
    var added, names := NewOps(s, have, isNew, now, s.ops), NewNames(snap, s);
    AddedNames(snap, s, isNew, now, s.ops);
    NewOpsNames(s, have, isNew, now, s.ops);
    assert |Names(added)| == |added|;
    assert forall i | 0 <= i < |added| :: added[i].name == names[i] && added[i] == NewOp(s, isNew, now, names[i]);
    hide NewOps, NewNames, Names, IsOpName, ValidText, ValidOperationId, StartingEntry;
    if ValidOps(added, snap.blanketRevision) {
      forall k | 0 <= k < |names| ensures IsOpName(names[k]) {
        assert ValidOp(added[k], snap.blanketRevision);
      }
      assert ValidOp(added[0], snap.blanketRevision);
      forall j, k | 0 <= j < k < |names| ensures names[j] != names[k] {
        assert NameOf(added[j]) != NameOf(added[k]);
      }
    }
  }

  /** The entry Stage starts from, in a published document. */
  lemma StartIsValid(snap: Snapshot, s: StageRequest)
    requires Published(snap)
    ensures var start := StartingEntry(Entry(snap, s.addonId), s);
            && ValidOps(start.ops, snap.blanketRevision) && |start.ops| == HeldCount(snap, s) && start.identity == s.identity
            && (if Continues(Entry(snap, s.addonId), s) then
                  IsAddonId(s.addonId) && s.identity != "" && ValidText(s.identity) && ValidOperationId(start.operationId)
                else start.operationId == s.operationId)
            && (s.addonId in snap.grants ==> IsAddonId(s.addonId))
  {
    hide ValidOp, IsAddonId, ValidText, ValidOperationId;
  }

  lemma EntryParts(id: string, e: AddonGrants, blanketRevision: nat)
    ensures ValidEntry(id, e, blanketRevision) <==>
            && IsAddonId(id) && e.identity != "" && ValidText(e.identity) && ValidOperationId(e.operationId)
            && 0 < |e.ops| <= 32 && ValidOps(e.ops, blanketRevision)
  {
  }

  lemma PlannedEntry(snap: Snapshot, s: StageRequest, now: string)
    requires Plan(Stage(s), snap, now).Write?
    ensures var start := StartingEntry(Entry(snap, s.addonId), s);
            var added := NewOps(s, start.ops, !Continues(Entry(snap, s.addonId), s), now, s.ops);
            && added != [] && ClaimsHold(snap, s)
            && PlanStage(snap, s, now).patch == Patch(map[s.addonId := Some(start.(ops := start.ops + added))], map[])
  {
    hide NewOps, StartingEntry, Continues, StagedBy;
  }

  /** The entry that Stage writes is valid exactly when the request fits. */
  lemma StagedEntryValid(snap: Snapshot, s: StageRequest, now: string)
    requires Published(snap) && s.operationId != "" && Plan(Stage(s), snap, now).Write?
    ensures var entry := PlanStage(snap, s, now).patch.addons[s.addonId].value;
            ValidEntry(s.addonId, InOrder(entry), snap.blanketRevision) && (s.addonId !in snap.grants ==> |snap.grants| < 128)
            <==> Fits(snap, s)
  {
    var prev := Entry(snap, s.addonId);
    var isNew, start := !Continues(prev, s), StartingEntry(prev, s);
    var added := NewOps(s, start.ops, isNew, now, s.ops);
    PlannedEntry(snap, s, now);
    StartIsValid(snap, s);
    NewOpsNames(s, start.ops, isNew, now, s.ops);
    AddedNames(snap, s, isNew, now, s.ops);
    assert |Names(added)| == |added|;
    hide NewOps, NewNames, Sort, Published, ValidOps, ValidEntry, IsOpName, ValidText, ValidOperationId, IsAddonId;
    hide HasName, StagedBy, StartingEntry, Continues, HeldCount, PlanStage, ClaimsHold;
    ValidAdded(snap, s, isNew, now);
    ValidMerge(start.ops, added, snap.blanketRevision);
    EntryParts(s.addonId, InOrder(start.(ops := start.ops + added)), snap.blanketRevision);
  }

  /**
   A Stage that has something to write commits exactly when its request fits: valid
   texts and IDs, every new name an operation and asked for once, and room for them.
   */
  lemma StageCommitsIff(snap: Snapshot, s: StageRequest, now: string)
    requires Published(snap) && s.operationId != "" && Plan(Stage(s), snap, now).Write?
    ensures Effect(Stage(s), snap, now).Some? <==> Fits(snap, s)
  {
    hide Apply, Published, Fits, StagedBy, NewOps, ValidEntry, InOrder;
    StagedEntryValid(snap, s, now);
    EntryApplies(snap, s.addonId, PlanStage(snap, s, now).patch.addons[s.addonId].value);
  }

  // ---------- The calls that take grants away ----------

  /** A grant stays: Abort drops those of its operation, Reconcile what is not installed or not completed, a revoking edit those of the switch. */
  predicate Stays(c: Call, snap: Snapshot, id: string, op: OpGrant)
    requires id in snap.grants
  {
    var waitsFor := if op.operationId == "" then snap.grants[id].operationId else op.operationId;
    match c
    case Abort(operationId) => waitsFor != operationId
    case Remove(addonId, _) => id != addonId
    case Reconcile(installed, completed) =>
      id in installed && installed[id] == snap.grants[id].identity && waitsFor in completed
    case Configure(t, _, _) => !(t.revokeBlanket && op.source == Blanket)
    case Stage(_) => true
  }

  /** Of an entry its staying grants are left, and all of its records but those of the dropped grants. */
  ghost predicate Thinned(c: Call, snap: Snapshot, after: Snapshot, id: string)
    requires id in snap.grants
  {
    && (id in after.grants <==> exists op :: op in snap.grants[id].ops && Stays(c, snap, id, op))
    && (id in after.grants ==>
          && after.grants[id] == snap.grants[id].(ops := after.grants[id].ops)
          && forall op :: op in after.grants[id].ops <==> op in snap.grants[id].ops && Stays(c, snap, id, op))
  }

  /**
   A call that takes grants away and commits leaves exactly the grants that stay, each
   with its record, and an entry only where one stays; only Remove touches a hint, and
   only an edit the switch and the deny lists.
   */
  lemma ThinnedRecords(c: Call, snap: Snapshot, now: string, id: string)
    requires Published(snap) && !c.Stage? && Effect(c, snap, now).Some?
    ensures var after := Effect(c, snap, now).value;
            && SettingsAfter(c, snap, after)
            && after.grants.Keys <= snap.grants.Keys
            && (!c.Remove? ==> after.hints == snap.hints)
            && (id in snap.grants ==> Thinned(c, snap, after, id))
  {
    hide Apply, Thinned, Published, Sort, Filter;
    CallSettings(c, snap, now);
    if !c.Remove? {
      CallHints(c, snap, now);
    }
    OnlyListed(c, snap, now);
    if id in snap.grants {
      match c
      case Remove(_, _) => RemoveThins(c, snap, now, id);
      case Abort(_) => AbortThins(c, snap, now, id);
      case Reconcile(_, _) => ReconcileThins(c, snap, now, id);
      case Configure(_, _, _) => ConfigureThins(c, snap, now, id);
    }
  }

  lemma CallSettings(c: Call, snap: Snapshot, now: string)
    requires Effect(c, snap, now).Some?
    ensures SettingsAfter(c, snap, Effect(c, snap, now).value)
  {
    hide NewOps, Sort, StagedBy, ValidSnapshot, KeptWhole, Trimmed, Revoked;
  }

  lemma CallHints(c: Call, snap: Snapshot, now: string)
    requires Published(snap) && !c.Stage? && !c.Remove? && Effect(c, snap, now).Some?
    ensures Effect(c, snap, now).value.hints == snap.hints
  {
    hide NewOps, Sort, StagedBy, ValidSnapshot, KeptWhole, Trimmed, Published;
    NormalForm(snap);
    assert PatchedHints(snap.hints, map[]) == snap.hints;
    assert Normalize(snap).hints == snap.hints;
  }

  lemma OnlyListed(c: Call, snap: Snapshot, now: string)
    requires !c.Stage? && Effect(c, snap, now).Some?
    ensures Effect(c, snap, now).value.grants.Keys <= snap.grants.Keys
  {
    hide Sort, ValidSnapshot, StagedBy, KeptWhole, Trimmed;
  }

  lemma TrimmedSorted(e: AddonGrants, keep: OpGrant -> bool)
    requires StrictlySorted(NameOf, e.ops)
    ensures var t := Trimmed(e, keep); t.Some? ==> t.value.(ops := Sort(NameOf, t.value.ops)) == t.value
  {
    FilterStrictlySorted(NameOf, keep, e.ops);
    StrictlySortedFacts(NameOf, Filter(keep, e.ops));
    SortOfSorted(NameOf, Filter(keep, e.ops));
    hide Filter, Sort;
  }

  /** Keeping the grants of an entry that satisfy a condition. */
  lemma TrimmedRecords(e: AddonGrants, keep: OpGrant -> bool)
    ensures var t := Trimmed(e, keep);
            && (t.Some? <==> exists op :: op in e.ops && keep(op))
            && (t.Some? ==> t.value == e.(ops := t.value.ops) && forall op :: op in t.value.ops <==> op in e.ops && keep(op))
  {
    FilterContents(keep, e.ops);
    hide Filter, Sort;
    var kept := Filter(keep, e.ops);
    if kept != [] {
      assert kept[0] in e.ops && keep(kept[0]);
    }
    forall op ensures op in kept <==> op in e.ops && keep(op) {
    }
  }

  lemma RemoveThins(c: Call, snap: Snapshot, now: string, id: string)
    requires Published(snap) && c.Remove? && Effect(c, snap, now).Some? && id in snap.grants
    ensures Thinned(c, snap, Effect(c, snap, now).value, id)
  {
    hide Apply, PlanStage, PlanAbort, PlanReconcile;
    ApplyEntry(snap, PlanRemove(snap, c.addonId, c.keepHint).patch, id);
    assert snap.grants[id].ops[0] in snap.grants[id].ops;
  }

  lemma AbortEntry(c: Call, snap: Snapshot, now: string, id: string)
    requires Published(snap) && c.Abort? && Effect(c, snap, now).Some? && id in snap.grants
    ensures var e := snap.grants[id];
            Entry(Effect(c, snap, now).value, id) == if StagedBy(e, c.operationId) then Trimmed(e, NotBy(e, c.operationId)) else Some(e)
  {
    var e := snap.grants[id];
    ApplyEntry(snap, PlanAbort(snap, c.operationId).patch, id);
    TrimmedSorted(e, NotBy(e, c.operationId));
    hide Apply, PlanStage, PlanRemove, PlanReconcile, Trimmed, Sort, ValidSnapshot, Published, StagedBy;
  }

  lemma ReconcileEntry(c: Call, snap: Snapshot, now: string, id: string)
    requires Published(snap) && c.Reconcile? && Effect(c, snap, now).Some? && id in snap.grants
    ensures var e := snap.grants[id];
            Entry(Effect(c, snap, now).value, id) ==
            if KeptWhole(id, e, c.installed, c.completed) then Some(e)
            else if Matches(id, e, c.installed) then Trimmed(e, Completed(e, c.completed)) else None
  {
    var e := snap.grants[id];
    ApplyEntry(snap, PlanReconcile(snap, c.installed, c.completed).patch, id);
    TrimmedSorted(e, Completed(e, c.completed));
    hide Apply, PlanStage, PlanRemove, PlanAbort, Trimmed, Sort, ValidSnapshot, Published, KeptWhole, Matches;
  }

  /** Where the entry is cut back to the grants of a condition that says which stay, it is thinned. */
  lemma ThinnedTo(c: Call, snap: Snapshot, after: Snapshot, id: string, keep: OpGrant -> bool)
    requires id in snap.grants
    requires Entry(after, id) == Trimmed(snap.grants[id], keep)
    requires forall i | 0 <= i < |snap.grants[id].ops| :: keep(snap.grants[id].ops[i]) == Stays(c, snap, id, snap.grants[id].ops[i])
    ensures Thinned(c, snap, after, id)
  {
    hide Trimmed, Stays;
    TrimmedRecords(snap.grants[id], keep);
  }

  lemma Untrimmed(e: AddonGrants, keep: OpGrant -> bool)
    requires e.ops != [] && forall i | 0 <= i < |e.ops| :: keep(e.ops[i])
    ensures Trimmed(e, keep) == Some(e)
  {
    FilterAll(keep, e.ops);
  }

  lemma AbortThins(c: Call, snap: Snapshot, now: string, id: string)
    requires Published(snap) && c.Abort? && Effect(c, snap, now).Some? && id in snap.grants
    ensures Thinned(c, snap, Effect(c, snap, now).value, id)
  {
    hide Effect, Trimmed, Published, Thinned;
    var e := snap.grants[id];
    PublishedEntry(snap, id);
    AbortEntry(c, snap, now, id);
    if !StagedBy(e, c.operationId) {
      Untrimmed(e, NotBy(e, c.operationId));
    }
    ThinnedTo(c, snap, Effect(c, snap, now).value, id, NotBy(e, c.operationId));
  }

  lemma PublishedEntry(snap: Snapshot, id: string)
    requires Published(snap) && id in snap.grants
    ensures StrictlySorted(NameOf, snap.grants[id].ops) && snap.grants[id].ops != []
  {
  }

  lemma ReconcileThins(c: Call, snap: Snapshot, now: string, id: string)
    requires Published(snap) && c.Reconcile? && Effect(c, snap, now).Some? && id in snap.grants
    ensures Thinned(c, snap, Effect(c, snap, now).value, id)
  {
    hide Effect, Trimmed, Published, Thinned;
    var e, after := snap.grants[id], Effect(c, snap, now).value;
    PublishedEntry(snap, id);
    ReconcileEntry(c, snap, now, id);
    if !Matches(id, e, c.installed) {
      NothingStays(c, snap, after, id);
    } else {
      if KeptWhole(id, e, c.installed, c.completed) {
        Untrimmed(e, Completed(e, c.completed));
      }
      ThinnedTo(c, snap, after, id, Completed(e, c.completed));
    }
  }

  lemma ConfigureThins(c: Call, snap: Snapshot, now: string, id: string)
    requires Published(snap) && c.Configure? && Effect(c, snap, now).Some? && id in snap.grants
    ensures Thinned(c, snap, Effect(c, snap, now).value, id)
  {
    var e, after := snap.grants[id], Effect(c, snap, now).value;
    PublishedEntry(snap, id);
    ApplyEntry(snap, Plan(c, snap, now).patch, id);
    hide Effect, Apply, Published, Thinned, Filter, Sort;
    if c.settings.revokeBlanket {
      ThinnedTo(c, snap, after, id, NotBlanket);
    } else {
      Untrimmed(e, (op: OpGrant) => true);
      ThinnedTo(c, snap, after, id, (op: OpGrant) => true);
    }
  }

  lemma NothingStays(c: Call, snap: Snapshot, after: Snapshot, id: string)
    requires c.Reconcile? && id in snap.grants && !Matches(id, snap.grants[id], c.installed) && Entry(after, id) == None
    ensures Thinned(c, snap, after, id)
  {
  }

  // ---------- The parts of a published document ----------

  ghost predicate GoodGrants(grants: map<string, AddonGrants>, blanketRevision: nat) {
    |grants| <= MAX_ADDONS
    && forall id | id in grants :: ValidEntry(id, grants[id], blanketRevision) && StrictlySorted(NameOf, grants[id].ops)
  }

  ghost predicate GoodHints(hints: map<string, seq<string>>) {
    |hints| <= MAX_ADDONS && forall id | id in hints :: ValidHint(id, hints[id]) && Sorted(Self, hints[id])
  }

  lemma PublishedParts(s: Snapshot)
    ensures Published(s) <==> ValidSettings(s) && GoodGrants(s.grants, s.blanketRevision) && GoodHints(s.hints)
  {
    hide ValidEntry, ValidHint, ValidSettings, StrictlySorted, Sorted;
  }

  lemma SameSettings(a: Snapshot, b: Snapshot)
    requires a.blanket == b.blanket && a.deny == b.deny
    ensures ValidSettings(a) <==> ValidSettings(b)
  {
  }

  /** Replacing or deleting entries of a published document by good ones keeps it published. */
  lemma GoodEntriesPublished(snap: Snapshot, addons: map<string, Option<AddonGrants>>)
    requires Published(snap) && addons.Keys <= snap.grants.Keys
    requires forall id | id in addons :: GoodEntry(snap, id, addons[id])
    ensures Published(snap.(grants := PatchedGrants(snap.grants, addons)))
  {
    var next := snap.(grants := PatchedGrants(snap.grants, addons));
    SubsetSize(next.grants.Keys, snap.grants.Keys);
    SameSettings(snap, next);
    PublishedParts(snap);
    PublishedParts(next);
    hide ValidEntry, GoodHints, ValidSettings, StrictlySorted, Published;
  }

  lemma GoodEntriesApply(snap: Snapshot, addons: map<string, Option<AddonGrants>>)
    requires Published(snap) && addons.Keys <= snap.grants.Keys
    requires forall id | id in addons :: GoodEntry(snap, id, addons[id])
    ensures Apply(snap, Patch(addons, map[])).Some?
  {
    GoodEntriesPublished(snap, addons);
    var next := snap.(grants := PatchedGrants(snap.grants, addons));
    NormalForm(next);
    PublishedIsValid(next);
    SameHints(snap.hints);
    hide Published, PatchedGrants, PatchedHints, Normalize, ValidSnapshot, GoodEntry;
  }

  lemma TrimmedIsGood(snap: Snapshot, id: string, keep: OpGrant -> bool)
    requires Published(snap) && id in snap.grants
    ensures GoodEntry(snap, id, Trimmed(snap.grants[id], keep))
  {
    var e := snap.grants[id];
    FilterContents(keep, e.ops);
    FilterStrictlySorted(NameOf, keep, e.ops);
    StrictlySortedFacts(NameOf, Filter(keep, e.ops));
    hide Filter, ValidOp;
  }

  lemma AbortApplies(snap: Snapshot, operationId: string)
    requires Published(snap) && PlanAbort(snap, operationId).Write?
    ensures Apply(snap, PlanAbort(snap, operationId).patch).Some?
  {
    hide Apply, GoodEntry, Trimmed, StagedBy, Published;
    forall id | id in snap.grants ensures GoodEntry(snap, id, Trimmed(snap.grants[id], NotBy(snap.grants[id], operationId))) {
      TrimmedIsGood(snap, id, NotBy(snap.grants[id], operationId));
    }
    GoodEntriesApply(snap, PlanAbort(snap, operationId).patch.addons);
  }

  lemma NothingIsGood(snap: Snapshot, id: string)
    ensures GoodEntry(snap, id, None)
  {
  }

  lemma ReconcileApplies(snap: Snapshot, installed: map<string, string>, completed: set<string>)
    requires Published(snap) && PlanReconcile(snap, installed, completed).Write?
    ensures Apply(snap, PlanReconcile(snap, installed, completed).patch).Some?
  {
    hide Apply, GoodEntry, Trimmed, KeptWhole, Matches, Published;
    forall id | id in snap.grants ensures GoodEntry(snap, id, Trimmed(snap.grants[id], Completed(snap.grants[id], completed))) {
      TrimmedIsGood(snap, id, Completed(snap.grants[id], completed));
    }
    forall id: string ensures GoodEntry(snap, id, None) {
      NothingIsGood(snap, id);
    }
    GoodEntriesApply(snap, PlanReconcile(snap, installed, completed).patch.addons);
  }

  lemma AbortIsDone(snap: Snapshot, operationId: string)
    ensures PlanAbort(snap, operationId).Done? <==>
            forall id, op | id in snap.grants && op in snap.grants[id].ops :: Stays(Abort(operationId), snap, id, op)
  {
    hide Trimmed;
    var addons := map id | id in snap.grants && StagedBy(snap.grants[id], operationId) ::
                    Trimmed(snap.grants[id], NotBy(snap.grants[id], operationId));
    if id, op :| id in snap.grants && op in snap.grants[id].ops && !Stays(Abort(operationId), snap, id, op) {
      assert EffectiveOperationId(snap.grants[id], op) == operationId;
      assert id in addons;
    } else {
      assert addons == map[];
    }
  }

  /** A grant that does not stay keeps Reconcile from leaving its entry whole. */
  lemma NotWhole(snap: Snapshot, installed: map<string, string>, completed: set<string>, id: string, op: OpGrant)
    requires id in snap.grants && op in snap.grants[id].ops && !Stays(Reconcile(installed, completed), snap, id, op)
    ensures !KeptWhole(id, snap.grants[id], installed, completed)
  {
    assert EffectiveOperationId(snap.grants[id], op) == if op.operationId == "" then snap.grants[id].operationId else op.operationId;
  }

  lemma ReconcileIsDone(snap: Snapshot, installed: map<string, string>, completed: set<string>)
    requires Published(snap)
    ensures PlanReconcile(snap, installed, completed).Done? <==>
            forall id, op | id in snap.grants && op in snap.grants[id].ops :: Stays(Reconcile(installed, completed), snap, id, op)
  {
    hide Trimmed, Stays, KeptWhole, Matches, Published;
    var c := Reconcile(installed, completed);
    var addons := map id | id in snap.grants && !KeptWhole(id, snap.grants[id], installed, completed) ::
                    if Matches(id, snap.grants[id], installed)
                    then Trimmed(snap.grants[id], Completed(snap.grants[id], completed))
                    else None;
    if id, op :| id in snap.grants && op in snap.grants[id].ops && !Stays(c, snap, id, op) {
      NotWhole(snap, installed, completed, id, op);
      assert id in addons;
    } else {
      forall id | id in snap.grants ensures KeptWhole(id, snap.grants[id], installed, completed) {
        WholeStays(snap, installed, completed, id);
      }
      assert addons == map[];
    }
  }

  lemma WholeStays(snap: Snapshot, installed: map<string, string>, completed: set<string>, id: string)
    requires Published(snap) && id in snap.grants
    requires forall op | op in snap.grants[id].ops :: Stays(Reconcile(installed, completed), snap, id, op)
    ensures KeptWhole(id, snap.grants[id], installed, completed)
  {
    var e := snap.grants[id];
    assert e.ops[0] in e.ops && Stays(Reconcile(installed, completed), snap, id, e.ops[0]);
    forall op | op in e.ops ensures EffectiveOperationId(e, op) in completed {
      assert Stays(Reconcile(installed, completed), snap, id, op);
    }
  }

  /** Abort and Reconcile write exactly when some grant does not stay, and the document never refuses that write. */
  lemma ThinningNeverFails(c: Call, snap: Snapshot, now: string)
    requires Published(snap) && (c.Abort? || c.Reconcile?)
    ensures Effect(c, snap, now).Some? <==> !Plan(c, snap, now).Done?
    ensures Plan(c, snap, now).Done? <==> forall id, op | id in snap.grants && op in snap.grants[id].ops :: Stays(c, snap, id, op)
  {
    hide Apply, Stays, Published, Trimmed, KeptWhole, StagedBy;
    match c
    case Abort(operationId) =>
      AbortIsDone(snap, operationId);
      if PlanAbort(snap, operationId).Write? {
        AbortApplies(snap, operationId);
      }
    case Reconcile(installed, completed) =>
      ReconcileIsDone(snap, installed, completed);
      if PlanReconcile(snap, installed, completed).Write? {
        ReconcileApplies(snap, installed, completed);
      }
  }

  // ---------- Edits of the settings ----------

  /** What the document asks of a changed switch and of changed deny lists. */
  predicate SettingsFit(t: Settings) {
    && (t.blanket.Some? ==> t.blanket.value.mode in {"off", "official", "any"} && ValidText(t.blanket.value.changedBy))
    && (t.deny.Some? ==> |t.deny.value| <= 128 && forall id | id in t.deny.value :: ValidDenyEntries(id, t.deny.value[id]))
  }

  /** The document that an edit leads to. */
  function Configured(snap: Snapshot, t: Settings): Snapshot {
    snap.(grants := Revoked(snap.grants, t.revokeBlanket), blanketRevision := SwitchRevision(snap, t.blanket),
          blanket := if t.blanket.Some? then t.blanket.value else snap.blanket,
          deny := if t.deny.Some? then t.deny.value else snap.deny)
  }

  lemma ConfiguredApplies(snap: Snapshot, t: Settings)
    ensures Apply(snap, Patch(map[], map[], t.revokeBlanket, t.blanket, t.deny)) ==
            var next := Normalize(Configured(snap, t)); if ValidSnapshot(next) then Some(next) else None
  {
    hide Normalize, ValidSnapshot, Revoked, SwitchRevision;
    var left := Revoked(snap.grants, t.revokeBlanket);
    assert PatchedGrants(left, map[]) == left;
    SameHints(snap.hints);
  }

  lemma EntryAtLaterRevision(id: string, e: AddonGrants, revision: nat, later: nat)
    requires ValidEntry(id, e, revision) && revision <= later
    ensures ValidEntry(id, e, later)
  {
    hide IsAddonId, IsOpName, ValidText, ValidOperationId;
  }

  lemma RevokedIsGood(snap: Snapshot, revoke: bool, later: nat)
    requires Published(snap) && snap.blanketRevision <= later
    ensures GoodGrants(Revoked(snap.grants, revoke), later)
  {
    var left := Revoked(snap.grants, revoke);
    hide Published, ValidEntry, StrictlySorted, Filter;
    SubsetSize(left.Keys, snap.grants.Keys);
    PublishedParts(snap);
    forall id | id in left ensures ValidEntry(id, left[id], later) && StrictlySorted(NameOf, left[id].ops) {
      if revoke {
        TrimmedIsGood(snap, id, NotBlanket);
      }
      EntryAtLaterRevision(id, left[id], snap.blanketRevision, later);
    }
  }

  lemma SettingsDecide(snap: Snapshot, t: Settings)
    requires Published(snap)
    ensures ValidSettings(Configured(snap, t)) <==> SettingsFit(t)
  {
    hide ValidText, ValidDenyEntries, Revoked;
  }

  lemma SettingsStay(s: Snapshot)
    ensures ValidSnapshot(Normalize(s)) ==> ValidSettings(s)
  {
    hide ValidEntry, ValidHint, Sort;
    SameSettings(Normalize(s), s);
    hide ValidSettings;
  }

  /** An edit commits exactly when its switch and its deny lists are valid; revoking never stands in the way. */
  lemma EditCommitsIff(c: Call, snap: Snapshot, now: string)
    requires Published(snap) && c.Configure?
    ensures Effect(c, snap, now).Some? <==> SettingsFit(c.settings)
  {
    hide Normalize, ValidSnapshot, Apply, Published, SettingsFit, Configured, GoodGrants, ValidSettings;
    var next := Configured(snap, c.settings);
    ConfiguredApplies(snap, c.settings);
    SettingsDecide(snap, c.settings);
    SettingsStay(next);
    if ValidSettings(next) {
      ConfiguredPublished(snap, c.settings);
      NormalForm(next);
      PublishedIsValid(next);
    }
  }

  lemma ConfiguredPublished(snap: Snapshot, t: Settings)
    requires Published(snap) && ValidSettings(Configured(snap, t))
    ensures Published(Configured(snap, t))
  {
    var next := Configured(snap, t);
    hide Published, ValidSettings, GoodGrants, Revoked, GoodHints;
    RevokedIsGood(snap, t.revokeBlanket, next.blanketRevision);
    PublishedParts(snap);
    PublishedParts(next);
  }

  /** An edit that sets the mode of the switch. */
  function SwitchTo(mode: string, expected: nat): Call {
    Configure(Settings(false, Some(Switch(mode, false, "")), None), expected, "edit")
  }

  /** A request for one operation of add-on "a" under the tag of a switch at revision 1. */
  const Tagged := Ask("A", "1").(blanket := Some(1))

  lemma SwitchCommits(snap: Snapshot, mode: string, now: string) returns (after: Snapshot)
    requires Published(snap) && mode in {"off", "official", "any"} && mode != snap.blanket.mode && snap.grants == map[]
    ensures Effect(SwitchTo(mode, snap.revision), snap, now) == Some(after) && Published(after)
    ensures after.blanketRevision == snap.blanketRevision + 1 && after.blanket.mode == mode && after.grants == map[]
    ensures after.revision == snap.revision + 1
  {
    hide Effect, Published, Thinned;
    var c := SwitchTo(mode, snap.revision);
    assert SettingsFit(c.settings);
    EditCommitsIff(c, snap, now);
    after := Effect(c, snap, now).value;
    EffectPublishes(c, snap, now);
    ThinnedRecords(c, snap, now, "");
    assert after.grants.Keys == {};
  }

  lemma TaggedFits(snap: Snapshot)
    requires snap.grants == map[]
    ensures Fits(snap, Tagged) && !Recorded(snap, Tagged) && !HeldByPackage(snap, Tagged, "a.b")
  {
    NameIsValid();
    TextIsValid('A');
    TextIsValid('1');
    assert "A" == ['A'] && "1" == ['1'];
    hide IsOpName, IsAddonId, ValidText, ValidOperationId;
    assert Tagged.ops[..0] == [];
    assert NewNames(snap, Tagged) == ["a.b"];
  }

  /**
   A blanket grant commits on the document whose switch it was planned under, and is
   refused as stale once an administrator changed the switch.
   */
  lemma OutdatedTagIsStale(now: string) returns (on: Snapshot, granted: Snapshot, changed: Snapshot)
    ensures Effect(SwitchTo("any", 0), Empty, now) == Some(on) && on.blanketRevision == 1
    ensures Effect(Stage(Tagged), on, now) == Some(granted)
    ensures "a" in granted.grants && exists op :: op in granted.grants["a"].ops && op.source == Blanket && op.blanketRevision == 1
    ensures Effect(SwitchTo("official", 1), on, now) == Some(changed)
    ensures Plan(Stage(Tagged), changed, now) == Outcome.Stale
  {
    hide Effect, Published, Plan, Fits;
    EmptyIsPublished();
    on := SwitchCommits(Empty, "any", now);
    TaggedFits(on);
    StageDecides(on, Tagged, now);
    assert Tagged.ops[0] == "a.b" && !HeldByPackage(on, Tagged, Tagged.ops[0]);
    StageCommitsIff(on, Tagged, now);
    granted := Effect(Stage(Tagged), on, now).value;
    var op := OpGrant("a.b", Blanket, now, "", "", 1, "");
    StagedRecords(on, Tagged, now, op);
    assert op.name == Tagged.ops[0];
    changed := SwitchCommits(on, "official", now);
    TaggedFits(changed);
    StageDecides(changed, Tagged, now);
  }

  lemma EmptyIsPublished()
    ensures Published(Empty)
  {
  }

  // ---------- Remove ----------

  /** Remove keeps a hint: it was asked to, and there are grants to remember. */
  predicate Remembers(snap: Snapshot, addonId: string, keepHint: bool) {
    keepHint && addonId in snap.grants
  }

  /** The document without the add-on, with or without its hint. */
  function Removed(snap: Snapshot, addonId: string, keepHint: bool): Snapshot {
    snap.(grants := snap.grants - {addonId},
          hints := if Remembers(snap, addonId, keepHint) then snap.hints[addonId := Names(snap.grants[addonId].ops)]
                   else snap.hints - {addonId})
  }

  /** A published entry can be remembered: its names are a valid hint in order. */
  lemma NamesAreAHint(snap: Snapshot, addonId: string)
    requires Published(snap) && addonId in snap.grants
    ensures var names := Names(snap.grants[addonId].ops);
            names != [] && ValidHint(addonId, names) && Sorted(Self, names)
  {
    var ops := snap.grants[addonId].ops;
    var names := Names(ops);
    StrictlySortedFacts(NameOf, ops);
    forall i, j | 0 <= i < j < |names| ensures names[i] != names[j] && !Less(names[j], names[i]) {
      assert NameOf(ops[i]) == names[i] && NameOf(ops[j]) == names[j];
    }
    forall n | n in names ensures IsOpName(n) {
      var i :| 0 <= i < |names| && names[i] == n;
      assert ValidOp(ops[i], snap.blanketRevision);
    }
  }

  lemma WithoutGrants(grants: map<string, AddonGrants>, id: string)
    ensures PatchedGrants(grants, map[id := None]) == grants - {id}
  {
    var patch: map<string, Option<AddonGrants>> := map[id := None];
    var a, b := PatchedGrants(grants, patch), grants - {id};
    assert forall k :: k in a <==> k in grants && k != id;
    assert forall k :: k in b <==> k in grants && k != id;
  }

  lemma WithHint(hints: map<string, seq<string>>, id: string, names: seq<string>)
    requires names != []
    ensures PatchedHints(hints, map[id := names]) == hints[id := names]
  {
    var a, b := PatchedHints(hints, map[id := names]), hints[id := names];
    assert forall k :: k in a <==> k in hints || k == id;
    assert forall k :: k in b <==> k in hints || k == id;
  }

  lemma WithoutHint(hints: map<string, seq<string>>, id: string)
    ensures PatchedHints(hints, map[id := []]) == hints - {id}
  {
    var a, b := PatchedHints(hints, map[id := []]), hints - {id};
    assert forall k :: k in a <==> k in hints && k != id;
    assert forall k :: k in b <==> k in hints && k != id;
  }

  lemma SameHints(hints: map<string, seq<string>>)
    ensures PatchedHints(hints, map[]) == hints
  {
  }

  /** A patch that leaves the switch and the deny lists alone leads to a document with those grants and hints, when it is valid. */
  lemma PatchBuilds(snap: Snapshot, addons: map<string, Option<AddonGrants>>, hints: map<string, seq<string>>, next: Snapshot)
    requires next == snap.(grants := PatchedGrants(snap.grants, addons), hints := PatchedHints(snap.hints, hints))
    ensures Apply(snap, Patch(addons, hints)) == if ValidSnapshot(Normalize(next)) then Some(Normalize(next)) else None
  {
    hide PatchedGrants, PatchedHints, Normalize, ValidSnapshot;
  }

  /** The patch of Remove leads to that document, when it is valid. */
  lemma RemovedBuilds(snap: Snapshot, addonId: string, keepHint: bool)
    requires Published(snap) && PlanRemove(snap, addonId, keepHint).Write?
    ensures Apply(snap, PlanRemove(snap, addonId, keepHint).patch) ==
            var next := Normalize(Removed(snap, addonId, keepHint)); if ValidSnapshot(next) then Some(next) else None
  {
    hide Published, Normalize, ValidSnapshot, ValidHint, PatchedGrants, PatchedHints, Names, Apply;
    if addonId in snap.grants {
      NamesAreAHint(snap, addonId);
      WithHint(snap.hints, addonId, Names(snap.grants[addonId].ops));
    }
    WithoutHint(snap.hints, addonId);
    SameHints(snap.hints);
    SizeWithout(snap.hints, addonId);
    WithoutGrants(snap.grants, addonId);
    var p := PlanRemove(snap, addonId, keepHint).patch;
    PatchBuilds(snap, p.addons, p.hints, Removed(snap, addonId, keepHint));
  }

  lemma GoodWithout(grants: map<string, AddonGrants>, hints: map<string, seq<string>>, blanketRevision: nat, id: string)
    ensures GoodGrants(grants, blanketRevision) ==> GoodGrants(grants - {id}, blanketRevision)
    ensures GoodHints(hints) ==> GoodHints(hints - {id})
  {
    SizeWithout(grants, id);
    SizeWithout(hints, id);
    hide ValidEntry, ValidHint, StrictlySorted, Sorted;
  }

  lemma GoodWith(hints: map<string, seq<string>>, id: string, names: seq<string>)
    requires GoodHints(hints) && ValidHint(id, names) && Sorted(Self, names) && (id !in hints ==> |hints| < 128)
    ensures GoodHints(hints[id := names])
  {
    SizeWith(hints, id, names);
    hide ValidHint, Sorted;
  }

  lemma RemovedPublished(snap: Snapshot, addonId: string, keepHint: bool)
    requires Published(snap)
    requires Remembers(snap, addonId, keepHint) && addonId !in snap.hints ==> |snap.hints| < 128
    ensures Published(Removed(snap, addonId, keepHint))
  {
    var next := Removed(snap, addonId, keepHint);
    SameSettings(snap, next);
    PublishedParts(snap);
    PublishedParts(next);
    GoodWithout(snap.grants, snap.hints, snap.blanketRevision, addonId);
    if Remembers(snap, addonId, keepHint) {
      NamesAreAHint(snap, addonId);
      GoodWith(snap.hints, addonId, Names(snap.grants[addonId].ops));
    }
    hide *;
  }

  lemma TooManyHints(s: Snapshot)
    requires |s.hints| > 128
    ensures !ValidSnapshot(Normalize(s))
  {
    hide ValidEntry, ValidHint, ValidSettings, Sort;
    assert Normalize(s).hints.Keys == s.hints.Keys;
  }

  lemma RemoveApplies(snap: Snapshot, addonId: string, keepHint: bool)
    requires Published(snap) && PlanRemove(snap, addonId, keepHint).Write?
    ensures Apply(snap, PlanRemove(snap, addonId, keepHint).patch) ==
            if Remembers(snap, addonId, keepHint) && addonId !in snap.hints && |snap.hints| >= 128 then None
            else Some(Removed(snap, addonId, keepHint))
  {
    hide Normalize, Published, ValidSnapshot, Apply, Names, PlanRemove;
    var next := Removed(snap, addonId, keepHint);
    RemovedBuilds(snap, addonId, keepHint);
    if Remembers(snap, addonId, keepHint) && addonId !in snap.hints && |snap.hints| >= 128 {
      SizeWith(snap.hints, addonId, Names(snap.grants[addonId].ops));
      TooManyHints(next);
    } else {
      RemovedPublished(snap, addonId, keepHint);
      NormalForm(next);
      PublishedIsValid(next);
    }
  }

  /**
   When Remove writes, when the document refuses the write, and what it leaves.  The
   one refusal: a new hint when 128 add-ons have one already.
   */
  lemma RemoveLeaves(snap: Snapshot, addonId: string, keepHint: bool, now: string)
    requires Published(snap)
    ensures Plan(Remove(addonId, keepHint), snap, now).Done? <==> addonId !in snap.grants && (addonId in snap.hints ==> keepHint)
    ensures Effect(Remove(addonId, keepHint), snap, now) ==
            if addonId !in snap.grants && (addonId in snap.hints ==> keepHint) then None
            else if keepHint && addonId in snap.grants && addonId !in snap.hints && |snap.hints| >= 128 then None
            else Some(snap.(revision := snap.revision + 1, grants := snap.grants - {addonId},
                            hints := if keepHint && addonId in snap.grants then snap.hints[addonId := Names(snap.grants[addonId].ops)]
                                     else snap.hints - {addonId}))
  {
    hide Published, Apply, Names;
    if PlanRemove(snap, addonId, keepHint).Write? {
      RemoveApplies(snap, addonId, keepHint);
    }
  }

  // ---------- The hints run out ----------

  function HintKey(i: nat): string {
    "h" + Dec(i)
  }

  function FullHints(n: nat): map<string, seq<string>> {
    if n == 0 then map[] else FullHints(n - 1)[HintKey(n - 1) := ["a.b"]]
  }

  lemma {:induction false} FullHintsAre(n: nat)
    ensures |FullHints(n)| == n
    ensures forall id | id in FullHints(n) :: FullHints(n)[id] == ["a.b"] && exists i: nat :: i < n && id == HintKey(i)
  {
    if n > 0 {
      FullHintsAre(n - 1);
      hide HintKey;
      var before, id := FullHints(n - 1), HintKey(n - 1);
      if id in before {
        var i: nat :| i < n - 1 && id == HintKey(i);
        KeysDiffer(i, n - 1);
      }
      SizeWith(before, id, ["a.b"]);
    }
  }

  lemma KeysDiffer(i: nat, j: nat)
    requires HintKey(i) == HintKey(j)
    ensures i == j
  {
    assert HintKey(i)[1..] == Dec(i) && HintKey(j)[1..] == Dec(j);
    DecInjective(i, j);
  }

  lemma KeyIsAddonId(i: nat)
    ensures IsAddonId(HintKey(i)) && HintKey(i) != "a"
  {
    var id := HintKey(i);
    assert id[0] == 'h';
    forall k | 0 <= k < |id| ensures IsLower(id[k]) || IsDigit(id[k]) {
      assert k > 0 ==> id[k] == Dec(i)[k - 1];
    }
  }

  lemma HintIsGood(id: string)
    requires IsAddonId(id)
    ensures ValidHint(id, ["a.b"]) && Sorted(Self, ["a.b"])
  {
    hide IsAddonId, IsOpName;
    NameIsValid();
  }

  /** Add-on "a" with its one grant, beside 128 remembered add-ons. */
  const Crowded := Doc(1, "A", "1").(hints := FullHints(128))

  /**
   It happens: an add-on that holds grants cannot be removed with a hint once 128 others
   are remembered, and can be removed without one.
   */
  lemma FullHintsRefuse(now: string)
    ensures Published(Crowded) && "a" in Crowded.grants
    ensures Plan(Remove("a", true), Crowded, now).Write? && Effect(Remove("a", true), Crowded, now).None?
    ensures Effect(Remove("a", false), Crowded, now).Some?
  {
    FullHintsAre(128);
    DocPublished(1, "A", "1");
    hide Published, FullHints, HintKey, ValidHint, Effect, Plan, Sorted, IsAddonId;
    forall id | id in Crowded.hints ensures ValidHint(id, Crowded.hints[id]) && Sorted(Self, Crowded.hints[id]) && id != "a" {
      var i: nat :| i < 128 && id == HintKey(i);
      KeyIsAddonId(i);
      HintIsGood(id);
    }
    PublishedParts(Doc(1, "A", "1"));
    PublishedParts(Crowded);
    SameSettings(Doc(1, "A", "1"), Crowded);
    RemoveLeaves(Crowded, "a", true, now);
    RemoveLeaves(Crowded, "a", false, now);
    RefusedWrite(Crowded, now);
  }

  lemma RefusedWrite(snap: Snapshot, now: string)
    requires "a" in snap.grants
    ensures Plan(Remove("a", true), snap, now).Write?
  {
  }
}
