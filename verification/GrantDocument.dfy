/**
 The owner's document of host grants: entries, the patch that changes it, and
 `Apply`, which normalizes and validates every state before it is published.
 */
module GrantDocument {
  import opened Basics
  import opened Text
  import opened Sorting

  const MAX_ADDONS := 128
  const MAX_OPS_PER_ADDON := 32
  const MAX_HINTS_PER_ADDON := 32
  const MAX_DENY_KEYS := 128
  const MAX_DENY_ENTRIES := 32

  datatype Source = Install | Upgrade | Edit | Blanket

  datatype OpGrant = OpGrant(
    name: string, source: Source, at: string, actor: string, version: string,
    blanketRevision: nat, operationId: string)

  datatype AddonGrants = AddonGrants(identity: string, generation: nat, operationId: string, ops: seq<OpGrant>)

  /** The blanket switch without its revision, which the store assigns. */
  datatype Switch = Switch(mode: string, includeOptional: bool, changedBy: string)

  const SWITCHED_OFF := Switch("off", false, "")

  datatype Snapshot = Snapshot(
    revision: nat, blanketRevision: nat, grants: map<string, AddonGrants>, hints: map<string, seq<string>>,
    blanket: Switch := SWITCHED_OFF, deny: map<string, seq<string>> := map[])

  /**
   `addons` replaces whole entries, None deletes one; an empty hint list deletes the hint.
   The other parts are the administrator's: the lifecycle operations leave them out.
   */
  datatype Patch = Patch(
    addons: map<string, Option<AddonGrants>>, hints: map<string, seq<string>>,
    revokeBlanket: bool := false, blanket: Option<Switch> := None, deny: Option<map<string, seq<string>>> := None)

  const Empty := Snapshot(0, 0, map[], map[])

  /** The operation that must complete before a grant counts: the grant's own, or that of its entry. */
  function EffectiveOperationId(e: AddonGrants, op: OpGrant): string {
    if op.operationId != "" then op.operationId else e.operationId
  }

  function NameOf(op: OpGrant): string {
    op.name
  }

  function Self(name: string): string {
    name
  }

  predicate HasName(ops: seq<OpGrant>, name: string) {
    exists i | 0 <= i < |ops| :: ops[i].name == name
  }

  function Names(ops: seq<OpGrant>): seq<string> {
    seq(|ops|, i requires 0 <= i < |ops| => ops[i].name)
  }

  // ---------- Validity ----------

  predicate ValidText(s: string) {
    |s| <= 256 && forall c | c in s :: ' ' <= c && c != '\U{7F}'
  }

  predicate ValidOperationId(id: string) {
    0 < |id| <= 128 && ValidText(id) && id[0] != ' ' && id[|id| - 1] != ' '
  }

  predicate IsLower(c: char) {
    'a' <= c <= 'z'
  }

  /** `^[a-z0-9][a-z0-9-]*$` */
  predicate IsAddonId(id: string) {
    id != "" && id[0] != '-' && forall c | c in id :: IsLower(c) || IsDigit(c) || c == '-'
  }

  /** `^[a-z]+(\.[a-z]+)+$` : two or more words of letters joined by single dots. */
  predicate IsOpName(s: string) {
    && s != "" && IsLower(s[0]) && IsLower(s[|s| - 1]) && '.' in s
    && (forall c | c in s :: IsLower(c) || c == '.')
    && forall i | 0 < i < |s| :: !(s[i - 1] == '.' && s[i] == '.')
  }

  predicate ValidOp(op: OpGrant, blanketRevision: nat) {
    && IsOpName(op.name)
    && (op.operationId == "" || ValidOperationId(op.operationId))
    && ValidText(op.actor) && ValidText(op.version)
    && (op.source == Blanket <==> op.blanketRevision != 0)
    && op.blanketRevision <= blanketRevision
  }

  predicate ValidEntry(id: string, e: AddonGrants, blanketRevision: nat) {
    && IsAddonId(id)
    && e.identity != "" && ValidText(e.identity) && ValidOperationId(e.operationId)
    && 0 < |e.ops| <= MAX_OPS_PER_ADDON
    && DistinctKeys(NameOf, e.ops)
    && forall op | op in e.ops :: ValidOp(op, blanketRevision)
  }

  predicate ValidHint(id: string, names: seq<string>) {
    && IsAddonId(id) && |names| <= MAX_HINTS_PER_ADDON
    && DistinctKeys(Self, names)
    && forall n | n in names :: IsOpName(n)
  }

  /** `^[a-z]+\.([a-z]+\.)*$` : words of letters, each followed by a dot. */
  predicate IsPrefix(s: string) {
    && s != "" && IsLower(s[0]) && s[|s| - 1] == '.'
    && (forall c | c in s :: IsLower(c) || c == '.')
    && forall i | 0 < i < |s| :: !(s[i - 1] == '.' && s[i] == '.')
  }

  predicate ValidDenyEntries(id: string, entries: seq<string>) {
    && (id == "*" || IsAddonId(id)) && |entries| <= MAX_DENY_ENTRIES
    && DistinctKeys(Self, entries)
    && (forall e | e in entries :: e == "*" || IsPrefix(e) || IsOpName(e))
    && ("*" in entries ==> |entries| == 1)
  }

  predicate ValidSettings(s: Snapshot) {
    && s.blanket.mode in {"off", "official", "any"} && ValidText(s.blanket.changedBy)
    && |s.deny| <= MAX_DENY_KEYS && forall id | id in s.deny :: ValidDenyEntries(id, s.deny[id])
  }

  predicate ValidSnapshot(s: Snapshot) {
    && ValidSettings(s)
    && |s.grants| <= MAX_ADDONS && |s.hints| <= MAX_ADDONS
    && (forall id | id in s.grants :: ValidEntry(id, s.grants[id], s.blanketRevision))
    && forall id | id in s.hints :: ValidHint(id, s.hints[id])
  }

  // ---------- Patches ----------

  predicate NotBlanket(op: OpGrant) {
    op.source != Blanket
  }

  /** The entries without what the blanket switch granted; an entry with nothing left goes. */
  function Revoked(grants: map<string, AddonGrants>, revoke: bool): map<string, AddonGrants> {
    if !revoke then grants
    else map id | id in grants && Filter(NotBlanket, grants[id].ops) != [] ::
           grants[id].(ops := Filter(NotBlanket, grants[id].ops))
  }

  /** The revision of the switch counts the changes of its mode and scope. */
  function SwitchRevision(base: Snapshot, change: Option<Switch>): nat {
    if change.Some? && (change.value.mode != base.blanket.mode || change.value.includeOptional != base.blanket.includeOptional)
    then base.blanketRevision + 1 else base.blanketRevision
  }

  function PatchedGrants(grants: map<string, AddonGrants>, patch: map<string, Option<AddonGrants>>): map<string, AddonGrants> {
    map id | id in grants.Keys + patch.Keys && (id in patch ==> patch[id].Some?) ::
      if id in patch then patch[id].value else grants[id]
  }

  function PatchedHints(hints: map<string, seq<string>>, patch: map<string, seq<string>>): map<string, seq<string>> {
    map id | id in hints.Keys + patch.Keys && (id in patch ==> patch[id] != []) ::
      if id in patch then patch[id] else hints[id]
  }

  /** Operation lists by name and hints by text; the deny lists keep their order. */
  function Normalize(s: Snapshot): Snapshot {
    s.(grants := map id | id in s.grants :: s.grants[id].(ops := Sort(NameOf, s.grants[id].ops)),
       hints := map id | id in s.hints :: Sort(Self, s.hints[id]))
  }

  function Apply(base: Snapshot, p: Patch): Option<Snapshot> {
    var next := Normalize(base.(
      grants := PatchedGrants(Revoked(base.grants, p.revokeBlanket), p.addons), hints := PatchedHints(base.hints, p.hints),
      blanketRevision := SwitchRevision(base, p.blanket),
      blanket := if p.blanket.Some? then p.blanket.value else base.blanket,
      deny := if p.deny.Some? then p.deny.value else base.deny));
    if ValidSnapshot(next) then Some(next) else None
  }

  /** What every published snapshot looks like: valid, with every list in order. */
  ghost predicate Published(s: Snapshot) {
    && ValidSnapshot(s)
    && (forall id | id in s.grants :: StrictlySorted(NameOf, s.grants[id].ops))
    && forall id | id in s.hints :: Sorted(Self, s.hints[id])
  }

  /** Every state that Apply publishes is valid and in normal form. */
  lemma ApplyPublishes(base: Snapshot, p: Patch)
    requires Apply(base, p).Some?
    ensures Published(Apply(base, p).value)
    ensures Apply(base, p).value.revision == base.revision
    ensures Apply(base, p).value.blanket == if p.blanket.Some? then p.blanket.value else base.blanket
    ensures Apply(base, p).value.deny == if p.deny.Some? then p.deny.value else base.deny
    ensures var switch := Apply(base, p).value.blanket;
            Apply(base, p).value.blanketRevision ==
            base.blanketRevision + if switch.mode == base.blanket.mode && switch.includeOptional == base.blanket.includeOptional then 0 else 1
  {
    var next := Apply(base, p).value;
    var grants, hints := PatchedGrants(Revoked(base.grants, p.revokeBlanket), p.addons), PatchedHints(base.hints, p.hints);
    forall id | id in next.grants ensures StrictlySorted(NameOf, next.grants[id].ops) {
      SortContents(NameOf, grants[id].ops);
      SortedDistinct(NameOf, next.grants[id].ops);
    }
    forall id | id in next.hints ensures Sorted(Self, next.hints[id]) {
      SortContents(Self, hints[id]);
    }
  }

  /** What a patch does to the grants and the hint of one add-on, for a published base. */
  lemma ApplyEntry(base: Snapshot, p: Patch, id: string)
    requires Published(base) && Apply(base, p).Some?
    ensures var next, left := Apply(base, p).value, Revoked(base.grants, p.revokeBlanket);
            && (id in next.grants <==> if id in p.addons then p.addons[id].Some? else id in left)
            && (id in next.grants && id in p.addons ==>
                  next.grants[id] == p.addons[id].value.(ops := Sort(NameOf, p.addons[id].value.ops)))
            && (id in next.grants && id !in p.addons ==> next.grants[id] == left[id])
    ensures var next := Apply(base, p).value;
            && (id in next.hints <==> if id in p.hints then p.hints[id] != [] else id in base.hints)
            && (id in next.hints ==> next.hints[id] == if id in p.hints then Sort(Self, p.hints[id]) else base.hints[id])
  {
    var left := Revoked(base.grants, p.revokeBlanket);
    if id in left {
      if p.revokeBlanket {
        FilterStrictlySorted(NameOf, NotBlanket, base.grants[id].ops);
      }
      StrictlySortedFacts(NameOf, left[id].ops);
      SortOfSorted(NameOf, left[id].ops);
    }
    if id in base.hints {
      SortOfSorted(Self, base.hints[id]);
    }
  }
}
