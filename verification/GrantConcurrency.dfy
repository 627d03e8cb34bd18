/**
 Any number of callers on one store: each reads a snapshot, plans, and tries to
 write at the revision it read, at most three times; an administrator's edit tries
 once, at the revision it names.  Between any two steps of one caller every other
 caller may run, the store may close, a write may be left in doubt, and the store
 may be opened again.
 */
module GrantConcurrency {
  import opened Basics
  import opened Text
  import opened GrantDocument
  import opened GrantOperations
  import opened GrantProvenance
  import opened GrantStore

  const MAX_ATTEMPTS := 3

  // ---------- Operation IDs of the store ----------

  function KeyFront(c: Call): string {
    match c
    case Stage(s) => "stage-" + s.operationId + "-"
    case Abort(op) => "abort-" + op + "-"
    case Remove(id, _) => "remove-" + id + "-"
    case Reconcile(_, _) => "reconcile-"
    case Configure(_, _, id) => id
  }

  /** The operation ID a call uses at a revision: derived from it, but for an edit, which brings its own. */
  function Key(c: Call, revision: nat): string {
    if c.Configure? then c.editId else KeyFront(c) + ("r" + Dec(revision))
  }

  /** The revision a call writes at: that of its snapshot, but for an edit, which names it. */
  function Expected(c: Call, snap: Snapshot): nat {
    if c.Configure? then c.expected else snap.revision
  }

  lemma NumeralEnds(a: string, x: string, b: string, y: string)
    requires AllDigits(x) && AllDigits(y)
    requires a + ("r" + x) == b + ("r" + y)
    ensures a == b && x == y
  {
    var s := a + ("r" + x);
    assert s[|a|] == 'r' && s[|b|] == 'r';
    assert forall k | |a| < k < |s| :: IsDigit(s[k]);
    assert forall k | |b| < k < |s| :: IsDigit(s[k]);
    assert s[..|a|] == a && s[..|b|] == b;
    assert s[|a| + 1..] == x && s[|b| + 1..] == y;
  }

  /** The keys, as the program spells them. */
  lemma KeyIs(c: Call, revision: nat)
    ensures Key(c, revision) ==
            match c
            case Stage(s) => "stage-" + s.operationId + "-r" + Dec(revision)
            case Abort(op) => "abort-" + op + "-r" + Dec(revision)
            case Remove(id, _) => "remove-" + id + "-r" + Dec(revision)
            case Reconcile(_, _) => "reconcile-r" + Dec(revision)
            case Configure(_, _, id) => id
  {
    hide Dec;
    match c
    case Stage(s) => assert "stage-" + s.operationId + "-" + ("r" + Dec(revision)) == "stage-" + s.operationId + "-r" + Dec(revision);
    case Abort(op) => assert "abort-" + op + "-" + ("r" + Dec(revision)) == "abort-" + op + "-r" + Dec(revision);
    case Remove(id, _) => assert "remove-" + id + "-" + ("r" + Dec(revision)) == "remove-" + id + "-r" + Dec(revision);
    case Reconcile(_, _) => assert "reconcile-" + ("r" + Dec(revision)) == "reconcile-r" + Dec(revision);
    case Configure(_, _, _) =>
  }

  /** Two calls of one kind for one operation, or for one add-on. */
  predicate SameTarget(c: Call, d: Call) {
    match c
    case Stage(s) => d.Stage? && d.request.operationId == s.operationId
    case Abort(op) => d.Abort? && d.operationId == op
    case Remove(id, _) => d.Remove? && d.addonId == id
    case Reconcile(_, _) => d.Reconcile?
    case Configure(_, _, id) => d.Configure? && d.editId == id
  }

  /** A derived key tells the revision and the target: no two unrelated lifecycle writes share one. */
  lemma KeyIdentifies(c: Call, r: nat, d: Call, q: nat)
    requires !c.Configure? && !d.Configure? && Key(c, r) == Key(d, q)
    ensures r == q && SameTarget(c, d)
    ensures match c
            case Stage(s) => d.Stage? && d.request.operationId == s.operationId
            case Abort(op) => d.Abort? && d.operationId == op
            case Remove(id, _) => d.Remove? && d.addonId == id
            case _ => d.Reconcile?
  {
    NumeralEnds(KeyFront(c), Dec(r), KeyFront(d), Dec(q));
    DecInjective(r, q);
    FrontIdentifies(c, d);
  }

  lemma FrontIdentifies(c: Call, d: Call)
    requires !c.Configure? && !d.Configure? && KeyFront(c) == KeyFront(d)
    ensures SameTarget(c, d)
  {
    var s := KeyFront(c);
    assert s[0] == KeyFront(d)[0] && s[2] == KeyFront(d)[2];
    match c
    case Stage(x) =>
      assert d.Stage?;
      assert s[6..|s| - 1] == x.operationId && s[6..|s| - 1] == d.request.operationId;
    case Abort(op) =>
      assert d.Abort?;
      assert s[6..|s| - 1] == op && s[6..|s| - 1] == d.operationId;
    case Remove(id, _) =>
      assert d.Remove?;
      assert s[7..|s| - 1] == id && s[7..|s| - 1] == d.addonId;
    case Reconcile(_, _) =>
  }

  // ---------- The system ----------

  datatype CallError = Store(error: GrantStore.Error) | Stale

  /** Nothing: success without a write.  Replayed: an identical write was already there. */
  datatype CallResult = Nothing | Committed | Replayed | Error(error: CallError)

  datatype Pc =
    | Ready(attempt: nat)
    | Writing(attempt: nat, snap: Snapshot, now: string, patch: Patch)
    | Returned(result: CallResult)

  /** `since` is the number of commits there were when the call began. */
  datatype Caller = Caller(call: Call, pc: Pc, since: nat)

  /** A write whose durability is in doubt, and whose it was. */
  datatype Doubt = Doubt(commit: Commit, owner: nat)

  /** `run` and `owners` record the writes that are settled, and whose they were. */
  datatype System = System(store: State, callers: map<nat, Caller>, run: seq<Commit>, owners: seq<nat>, doubt: Option<Doubt>)

  datatype Step =
    | Begin(id: nat, call: Call)
    | Read(id: nat, now: string, cancelled: bool)
    | Cas(id: nat, env: Env)
    | GiveUp(id: nat)
    | CloseStore
    | ReopenStore(survives: bool)  // whether a write in doubt is there

  const Init := System(StoreState(EmptyDocument, EmptyDocument, false, false), map[], [], [], None)

  /** What a call that ran out of attempts reports: Stage a stale approval, the others the conflict. */
  function GaveUp(c: Call): CallError {
    if c.Stage? then CallError.Stale else Store(Conflict)
  }

  /** The result means that every attempt lost to another commit; a Stage without a claim has no other reason to be stale. */
  predicate LostEveryAttempt(c: Call, result: CallResult) {
    result == Error(GaveUp(c)) && !c.Configure? && (c.Stage? ==> c.request.expectedRevision == 0 && c.request.blanket.None?)
  }

  function SetPc(s: System, id: nat, pc: Pc): System
    requires id in s.callers
  {
    s.(callers := s.callers[id := s.callers[id].(pc := pc)])
  }

  /** A call that can give or change grants: it is written only with its audit line. */
  predicate IsAudited(c: Call) {
    c.Stage? || c.Configure?
  }

  /** The other writes are not gated on an audit line. */
  function WriteEnv(c: Call, env: Env): Env {
    if IsAudited(c) then env else env.(auditAccepts := true)
  }

  function ReadPc(s: System, id: nat, now: string, cancelled: bool): Pc
    requires id in s.callers && s.callers[id].pc.Ready?
  {
    var c := s.callers[id];
    if cancelled then Returned(Error(Store(Cancelled)))
    else if Usable(s.store).Some? then Returned(Error(Store(Usable(s.store).value)))
    else
      match Plan(c.call, s.store.doc.snapshot, now)
      case Done => Returned(Nothing)
      case Stale => Returned(Error(CallError.Stale))
      case Write(patch) => Writing(c.pc.attempt, s.store.doc.snapshot, now, patch)
  }

  function CasPc(c: Caller, result: Result): Pc
    requires c.pc.Writing?
  {
    match result
    case Updated(_, replayed) => Returned(if replayed then Replayed else Committed)
    case Failed(error) =>
      if error != Conflict then Returned(Error(Store(error)))
      else if c.call.Configure? then Returned(Error(Store(Conflict)))
      else if c.call.Stage? && c.call.request.expectedRevision != 0 then Returned(Error(CallError.Stale))
      else Ready(c.pc.attempt + 1)
  }

  function CasUpdate(s: System, id: nat, env: Env): (State, Result)
    requires id in s.callers && s.callers[id].pc.Writing?
  {
    var c := s.callers[id];
    Update(s.store, c.pc.patch, Expected(c.call, c.pc.snap), Key(c.call, c.pc.snap.revision), WriteEnv(c.call, env))
  }

  /** The write reached the disk: it was published, or it is in doubt but was renamed. */
  predicate ReachedDisk(before: State, after: State) {
    after.disk != before.disk
  }

  ghost predicate Enabled(s: System, step: Step) {
    match step
    case Begin(id, call) => id !in s.callers && NamesItsOperation(call)
    case Read(id, _, _) => id in s.callers && s.callers[id].pc.Ready? && s.callers[id].pc.attempt < MAX_ATTEMPTS
    case Cas(id, _) => id in s.callers && s.callers[id].pc.Writing?
    case GiveUp(id) => id in s.callers && s.callers[id].pc.Ready? && s.callers[id].pc.attempt >= MAX_ATTEMPTS
    case CloseStore => true
    case ReopenStore(_) => true
  }

  /** The commit that a write step records. */
  function CommitOf(s: System, id: nat, env: Env): Commit
    requires id in s.callers && s.callers[id].pc.Writing?
  {
    Commit(s.callers[id].call, s.callers[id].pc.now, s.store.doc.snapshot, CasUpdate(s, id, env).0.disk.snapshot)
  }

  /** A write: the caller moves on; what reached the disk is settled, or in doubt. */
  function AfterCas(s: System, id: nat, env: Env): System
    requires id in s.callers && s.callers[id].pc.Writing?
  {
    var (store, result) := CasUpdate(s, id, env);
    var moved := SetPc(s, id, CasPc(s.callers[id], result)).(store := store);
    if !ReachedDisk(s.store, store) then moved
    else if store.uncertain then moved.(doubt := Some(Doubt(CommitOf(s, id, env), id)))
    else moved.(run := s.run + [CommitOf(s, id, env)], owners := s.owners + [id])
  }

  /** The store is opened again; a write in doubt is settled, or is gone. */
  function AfterReopen(s: System, survives: bool): System {
    var reopened := s.(store := Reopen(s.store, survives), doubt := None);
    if s.doubt.Some? && survives
    then reopened.(run := s.run + [s.doubt.value.commit], owners := s.owners + [s.doubt.value.owner])
    else reopened
  }

  function Next(s: System, step: Step): System
    requires Enabled(s, step)
  {
    match step
    case Begin(id, call) => s.(callers := s.callers[id := Caller(call, Ready(0), |s.run|)])
    case Read(id, now, cancelled) => SetPc(s, id, ReadPc(s, id, now, cancelled))
    case Cas(id, env) => AfterCas(s, id, env)
    case GiveUp(id) => SetPc(s, id, Returned(Error(GaveUp(s.callers[id].call))))
    case CloseStore => s.(store := s.store.(closed := true))
    case ReopenStore(survives) => AfterReopen(s, survives)
  }

  /** A run of the system: any steps of any callers, in any order, from the empty store. */
  ghost predicate Trace(states: seq<System>, steps: seq<Step>) {
    && |states| == |steps| + 1 && states[0] == Init
    && forall i | 0 <= i < |steps| :: Enabled(states[i], steps[i]) && states[i + 1] == Next(states[i], steps[i])
  }

  // ---------- What every step keeps ----------

  /** The document at a revision, as the run of commits tells it. */
  function At(run: seq<Commit>, revision: nat): Snapshot
    requires revision <= |run|
  {
    Last(Empty, run[..revision])
  }

  /** A receipt names the commit that wrote it. */
  ghost predicate ReceiptTells(run: seq<Commit>, key: string, r: Receipt) {
    && 1 <= r.revision <= |run|
    && var c := run[r.revision - 1];
       key == Key(c.call, r.revision - 1) && Plan(c.call, c.before, c.now) == Write(r.body)
  }

  /** The document is the last of the run, and its receipts name the commits of the run. */
  ghost predicate DocTells(doc: Document, run: seq<Commit>) {
    && Sequential(Empty, run) && OperationsNamed(run)
    && doc.snapshot == Last(Empty, run) && doc.snapshot.revision == |run|
    && ReceiptsInOrder(doc)
    && forall key | key in doc.receipts :: ReceiptTells(run, key, doc.receipts[key])
  }

  /** The commits whose documents reached the disk: the settled ones and the one in doubt. */
  function Written(s: System): seq<Commit> {
    if s.doubt.Some? then s.run + [s.doubt.value.commit] else s.run
  }

  ghost predicate StoreTells(s: System) {
    && DocTells(s.store.doc, s.run) && DocTells(s.store.disk, Written(s)) && |s.owners| == |s.run|
    && (s.store.uncertain <==> s.doubt.Some?) && (!s.store.uncertain ==> s.store.doc == s.store.disk)
  }

  ghost predicate OwnsOne(owners: seq<nat>, id: nat) {
    id in owners && forall i, j | 0 <= i < j < |owners| :: !(owners[i] == id && owners[j] == id)
  }

  /** A commit of another caller that wrote the same patch to the same document. */
  ghost predicate HasTwin(run: seq<Commit>, c: Call) {
    exists i, now :: 0 <= i < |run| && SameTarget(c, run[i].call)
                     && Plan(c, run[i].before, now) == Plan(run[i].call, run[i].before, run[i].now)
  }

  ghost predicate ReturnTells(run: seq<Commit>, owners: seq<nat>, id: nat, c: Call, result: CallResult) {
    match result
    case Committed => OwnsOne(owners, id)
    case Nothing => id !in owners
    case Replayed => id !in owners && HasTwin(run, c)
    case Error(e) => if e == Store(Uncertain) then id in owners ==> OwnsOne(owners, id) else id !in owners
  }

  /** What is known of a caller between its steps. */
  ghost predicate CallerTells(run: seq<Commit>, owners: seq<nat>, id: nat, c: Caller) {
    && NamesItsOperation(c.call)
    && |owners| == |run| && (forall i | 0 <= i < |run| && owners[i] == id :: run[i].call == c.call)
    && match c.pc
       case Ready(k) => id !in owners && c.since + k <= |run|
       case Writing(k, snap, now, patch) =>
         && id !in owners && c.since + k <= snap.revision <= |run|
         && snap == At(run, snap.revision)
         && Plan(c.call, snap, now) == Write(patch)
       case Returned(result) =>
         && ReturnTells(run, owners, id, c.call, result)
         && (LostEveryAttempt(c.call, result) ==> c.since + MAX_ATTEMPTS <= |run|)
  }

  /** The caller of a write in doubt was told so, and owns nothing settled. */
  ghost predicate DoubtTells(s: System) {
    s.doubt.Some? ==>
      var d := s.doubt.value;
      && d.owner in s.callers && d.owner !in s.owners && d.commit.call == s.callers[d.owner].call
      && s.callers[d.owner].pc == Returned(Error(Store(Uncertain)))
  }

  ghost predicate Inv(s: System) {
    && StoreTells(s) && DoubtTells(s)
    && (forall i | 0 <= i < |s.owners| :: s.owners[i] in s.callers)
    && forall id | id in s.callers :: CallerTells(s.run, s.owners, id, s.callers[id])
  }

  // ---------- The steps ----------

  lemma AtPrefix(run: seq<Commit>, c: Commit, revision: nat)
    requires revision <= |run|
    ensures At(run + [c], revision) == At(run, revision)
  {
    assert (run + [c])[..revision] == run[..revision];
  }

  lemma BeforeIsAt(run: seq<Commit>, i: nat)
    requires Sequential(Empty, run) && i < |run|
    ensures run[i].before == At(run, i)
    ensures Effect(run[i].call, run[i].before, run[i].now) == Some(run[i].after)
  {
    hide Effect;
    CommitAt(Empty, run, i);
  }

  /** One caller moves on, and what is known of it holds of its new program counter. */
  lemma PcKeeps(s: System, id: nat, pc: Pc)
    requires Inv(s) && id in s.callers && !s.callers[id].pc.Returned?
    requires CallerTells(s.run, s.owners, id, s.callers[id].(pc := pc))
    ensures Inv(SetPc(s, id, pc))
  {
    hide CallerTells, DocTells;
  }

  lemma BeginKeeps(s: System, id: nat, call: Call)
    requires Inv(s) && id !in s.callers && NamesItsOperation(call)
    ensures Inv(s.(callers := s.callers[id := Caller(call, Ready(0), |s.run|)]))
  {
    hide DocTells, Plan, At;
    assert id !in s.owners;
  }

  lemma StaleHasAReason(c: Call, snap: Snapshot, now: string)
    requires Plan(c, snap, now) == Outcome.Stale
    ensures c.Stage? && (c.request.expectedRevision != 0 || c.request.blanket.Some?)
  {
  }

  lemma ReadKeeps(s: System, id: nat, now: string, cancelled: bool)
    requires Inv(s) && id in s.callers && s.callers[id].pc.Ready?
    ensures Inv(SetPc(s, id, ReadPc(s, id, now, cancelled)))
  {
    hide Sequential, OperationsNamed, ReceiptTells, Plan, Written;
    var c := s.callers[id];
    assert CallerTells(s.run, s.owners, id, c);
    assert s.run[..|s.run|] == s.run;
    if Plan(c.call, s.store.doc.snapshot, now) == Outcome.Stale {
      StaleHasAReason(c.call, s.store.doc.snapshot, now);
    }
    PcKeeps(s, id, ReadPc(s, id, now, cancelled));
  }

  lemma CloseKeeps(s: System)
    requires Inv(s)
    ensures Inv(s.(store := s.store.(closed := true)))
  {
    hide CallerTells, DocTells;
  }

  /** Opening the store again settles a write in doubt, one way or the other. */
  lemma ReopenKeeps(s: System, survives: bool)
    requires Inv(s)
    ensures Inv(AfterReopen(s, survives))
  {
    hide CallerTells, DocTells;
    if s.doubt.Some? && survives {
      var d, t := s.doubt.value, AfterReopen(s, true);
      forall id | id in t.callers ensures CallerTells(t.run, t.owners, id, t.callers[id]) {
        assert CallerTells(s.run, s.owners, id, s.callers[id]);
        if id == d.owner {
          OwnerTells(s.run, s.owners, id, s.callers[id], d.commit, true);
        } else {
          OthersKeep(s.run, s.owners, id, s.callers[id], d.commit, d.owner);
        }
      }
    }
  }

  // ---------- The write step ----------

  /** Only an edit writes a patch without entries. */
  lemma PatchKind(c: Call, snap: Snapshot, now: string)
    requires Plan(c, snap, now).Write?
    ensures c.Configure? <==> Plan(c, snap, now).patch.addons == map[]
  {
    hide NewOps, StagedBy, Trimmed, KeptWhole;
    if c.Stage? {
      assert c.request.addonId in Plan(c, snap, now).patch.addons;
    } else if c.Remove? {
      assert c.addonId in Plan(c, snap, now).patch.addons;
    }
  }

  /** A receipt of the same patch under the key of a call is the trace of a twin commit, of a lifecycle call at the same revision. */
  lemma ReceiptIsTwin(run: seq<Commit>, call: Call, snap: Snapshot, now: string, r: Receipt)
    requires Sequential(Empty, run) && ReceiptTells(run, Key(call, snap.revision), r)
    requires snap.revision <= |run| && snap == At(run, snap.revision) && Plan(call, snap, now) == Write(r.body)
    ensures !call.Configure? ==> snap.revision < |run|
    ensures HasTwin(run, call)
  {
    hide Plan, Effect, Sequential, Last, SameTarget, Key, HasTwin;
    var i := r.revision - 1;
    var d := run[i];
    assert Key(call, snap.revision) == Key(d.call, i) && Plan(d.call, d.before, d.now) == Write(r.body);
    PatchKind(call, snap, now);
    PatchKind(d.call, d.before, d.now);
    if call.Configure? {
      SameEdit(call, snap.revision, d.call, i);
      EditPlan(call, snap, now, d.before, now);
    } else {
      KeyIdentifies(call, snap.revision, d.call, i);
      BeforeIsAt(run, i);
    }
    TwinAt(run, call, now, i);
  }

  lemma SameEdit(c: Call, r: nat, d: Call, q: nat)
    requires c.Configure? && d.Configure? && Key(c, r) == Key(d, q)
    ensures SameTarget(c, d)
  {
  }

  lemma TwinAt(run: seq<Commit>, c: Call, now: string, i: nat)
    requires i < |run| && SameTarget(c, run[i].call)
    requires Plan(c, run[i].before, now) == Plan(run[i].call, run[i].before, run[i].now)
    ensures HasTwin(run, c)
  {
    hide Plan, SameTarget;
  }

  /** What an edit plans does not depend on the document. */
  lemma EditPlan(c: Call, a: Snapshot, now: string, b: Snapshot, later: string)
    requires c.Configure?
    ensures Plan(c, a, now) == Plan(c, b, later) && Plan(c, a, now).Write?
  {
  }

  lemma QuietCasKeeps(s: System, id: nat, env: Env)
    requires Inv(s) && id in s.callers && s.callers[id].pc.Writing?
    requires CasUpdate(s, id, env).0.disk == s.store.disk
    ensures CasUpdate(s, id, env).0 == s.store
    ensures Inv(SetPc(s, id, CasPc(s.callers[id], CasUpdate(s, id, env).1)))
  {
    hide Sequential, OperationsNamed, Plan, Key, Update, HasTwin, At, ReceiptTells;
    var c := s.callers[id];
    var key := Key(c.call, c.pc.snap.revision);
    assert CallerTells(s.run, s.owners, id, c);
    UpdateShape(s.store, c.pc.patch, Expected(c.call, c.pc.snap), key, WriteEnv(c.call, env));
    if key in s.store.doc.receipts && s.store.doc.receipts[key].body == c.pc.patch {
      ReceiptIsTwin(s.run, c.call, c.pc.snap, c.pc.now, s.store.doc.receipts[key]);
    }
    PcKeeps(s, id, CasPc(c, CasUpdate(s, id, env).1));
  }

  /** An edit of the run carried the operation ID. */
  ghost predicate EditHas(run: seq<Commit>, key: string) {
    exists i :: 0 <= i < |run| && run[i].call.Configure? && run[i].call.editId == key
  }

  /**
   A lifecycle call that writes at the current revision is never mistaken for a replay:
   its key is unknown, unless an administrator's edit carried the very same ID, and then
   the patches differ.
   */
  lemma CurrentRevisionIsNoReplay(s: System, id: nat)
    requires Inv(s) && id in s.callers && s.callers[id].pc.Writing? && !s.callers[id].call.Configure?
    requires s.callers[id].pc.snap.revision == s.store.doc.snapshot.revision
    ensures var c, receipts := s.callers[id], s.store.doc.receipts;
            var key := Key(c.call, c.pc.snap.revision);
            key in receipts ==> receipts[key].body != c.pc.patch && EditHas(s.run, key)
  {
    hide Key, Plan, Sequential, Last, At, HasTwin, EditHas;
    var c := s.callers[id];
    var key := Key(c.call, c.pc.snap.revision);
    assert CallerTells(s.run, s.owners, id, c);
    if key in s.store.doc.receipts {
      var r := s.store.doc.receipts[key];
      assert ReceiptTells(s.run, key, r);
      hide ReceiptTells;
      KeyTakenByEdit(s.run, c.call, r);
      if r.body == c.pc.patch {
        ReceiptIsTwin(s.run, c.call, c.pc.snap, c.pc.now, r);
      }
    }
  }

  /** A receipt under the key that a lifecycle call derives for the next revision is that of an edit. */
  lemma KeyTakenByEdit(run: seq<Commit>, call: Call, r: Receipt)
    requires !call.Configure? && ReceiptTells(run, Key(call, |run|), r)
    ensures EditHas(run, Key(call, |run|))
  {
    hide Plan;
    var i := r.revision - 1;
    if !run[i].call.Configure? {
      KeyIdentifies(call, |run|, run[i].call, i);
    }
  }

  /** What is known of a caller stays known when another caller commits. */
  lemma OthersKeep(run: seq<Commit>, owners: seq<nat>, id: nat, c: Caller, commit: Commit, owner: nat)
    requires CallerTells(run, owners, id, c) && owner != id
    ensures CallerTells(run + [commit], owners + [owner], id, c)
  {
    hide Plan, Last;
    match c.pc
    case Ready(_) =>
    case Writing(_, snap, _, _) => AtPrefix(run, commit, snap.revision);
    case Returned(result) =>
      if result.Replayed? {
        TwinKept(run, commit, c.call);
      }
  }

  lemma TwinKept(run: seq<Commit>, commit: Commit, c: Call)
    requires HasTwin(run, c)
    ensures HasTwin(run + [commit], c)
  {
    hide Plan, SameTarget;
    var i, now :| 0 <= i < |run| && SameTarget(c, run[i].call)
                  && Plan(c, run[i].before, now) == Plan(run[i].call, run[i].before, run[i].now);
    var all := run + [commit];
    assert all[i] == run[i];
    assert Plan(c, all[i].before, now) == Plan(all[i].call, all[i].before, all[i].now);
  }

  /** The caller that committed owns its one commit. */
  lemma OwnerTells(run: seq<Commit>, owners: seq<nat>, id: nat, c: Caller, commit: Commit, error: bool)
    requires CallerTells(run, owners, id, c) && id !in owners && commit.call == c.call
    ensures CallerTells(run + [commit], owners + [id], id,
                        c.(pc := Returned(if error then Error(Store(Uncertain)) else Committed)))
  {
    hide Plan, Last, At, HasTwin;
    var all := owners + [id];
    assert all[|owners|] == id;
    forall i | 0 <= i < |owners| ensures all[i] != id {
      assert all[i] == owners[i] && owners[i] in owners;
    }
  }

  lemma ReceiptsKept(run: seq<Commit>, commit: Commit, key: string, r: Receipt)
    requires ReceiptTells(run, key, r)
    ensures ReceiptTells(run + [commit], key, r)
  {
    hide Key, Plan;
    assert (run + [commit])[r.revision - 1] == run[r.revision - 1];
  }

  /** A write that reaches the disk is the effect of the call on the current document. */
  lemma CommitIsEffect(s: System, id: nat, env: Env)
    requires Inv(s) && id in s.callers && s.callers[id].pc.Writing?
    requires CasUpdate(s, id, env).0.disk != s.store.disk
    ensures Sequential(Empty, s.run + [CommitOf(s, id, env)])
    ensures OperationsNamed(s.run + [CommitOf(s, id, env)])
    ensures Expected(s.callers[id].call, s.callers[id].pc.snap) == |s.run| && s.store.doc == s.store.disk
    ensures Key(s.callers[id].call, s.callers[id].pc.snap.revision) == Key(s.callers[id].call, |s.run|)
    ensures Plan(s.callers[id].call, s.store.doc.snapshot, s.callers[id].pc.now) == Write(s.callers[id].pc.patch)
  {
    hide Update, Evict, ReceiptTells, Apply, Plan, Sequential, Key, Expected, HasTwin, ReceiptsInOrder;
    var c := s.callers[id];
    var all := s.run + [CommitOf(s, id, env)];
    UpdateShape(s.store, c.pc.patch, Expected(c.call, c.pc.snap), Key(c.call, c.pc.snap.revision), WriteEnv(c.call, env));
    PlannedOnCurrent(s, id);
    assert all[..|all| - 1] == s.run;
    LongerRun(s.run, CommitOf(s, id, env));
  }

  lemma LongerRun(run: seq<Commit>, c: Commit)
    requires Sequential(Empty, run) && c.before == Last(Empty, run) && Effect(c.call, c.before, c.now) == Some(c.after)
    ensures Sequential(Empty, run + [c])
  {
    hide Effect, Last;
    assert (run + [c])[..|run + [c]| - 1] == run;
  }

  /** A caller that writes at the current revision planned its patch for the current document. */
  lemma PlannedOnCurrent(s: System, id: nat)
    requires Inv(s) && id in s.callers && s.callers[id].pc.Writing?
    requires Expected(s.callers[id].call, s.callers[id].pc.snap) == s.store.doc.snapshot.revision
    ensures Expected(s.callers[id].call, s.callers[id].pc.snap) == |s.run|
    ensures Key(s.callers[id].call, s.callers[id].pc.snap.revision) == Key(s.callers[id].call, |s.run|)
    ensures Plan(s.callers[id].call, s.store.doc.snapshot, s.callers[id].pc.now) == Write(s.callers[id].pc.patch)
  {
    hide Plan, Sequential, OperationsNamed, ReceiptTells, Last, KeyFront, HasTwin;
    var c := s.callers[id];
    assert CallerTells(s.run, s.owners, id, c);
    assert s.run[..|s.run|] == s.run;
    if c.call.Configure? {
      EditPlan(c.call, c.pc.snap, c.pc.now, s.store.doc.snapshot, c.pc.now);
    }
  }

  lemma CommitStoreTells(s: System, id: nat, env: Env)
    requires Inv(s) && id in s.callers && s.callers[id].pc.Writing?
    requires CasUpdate(s, id, env).0.disk != s.store.disk
    ensures DocTells(CasUpdate(s, id, env).0.disk, s.run + [CommitOf(s, id, env)])
  {
    hide Key, Plan, Update, Evict, ReceiptTells, Apply, Sequential, OperationsNamed, CallerTells, DistinctRevisions;
    var c := s.callers[id];
    var key := Key(c.call, c.pc.snap.revision);
    var store := CasUpdate(s, id, env).0;
    var r := Receipt(c.pc.patch, Expected(c.call, c.pc.snap) + 1);
    CommitIsEffect(s, id, env);
    UpdateShape(s.store, c.pc.patch, Expected(c.call, c.pc.snap), key, WriteEnv(c.call, env));
    WithReceipt(s.store.doc, key, r);
    EvictDropsTheOldest(s.store.doc, key, r);
    var run := s.run + [CommitOf(s, id, env)];
    NewReceipt(run, c.call, key, r);
    forall k | k in store.disk.receipts ensures ReceiptTells(run, k, store.disk.receipts[k]) {
      if k != key {
        assert k in s.store.doc.receipts;
        ReceiptsKept(s.run, CommitOf(s, id, env), k, store.disk.receipts[k]);
      }
    }
  }

  lemma NewReceipt(run: seq<Commit>, call: Call, key: string, r: Receipt)
    requires run != [] && r.revision == |run| && run[|run| - 1].call == call && key == Key(call, |run| - 1)
    requires Plan(call, run[|run| - 1].before, run[|run| - 1].now) == Write(r.body)
    ensures ReceiptTells(run, key, r)
  {
  }

  /** A write that reaches the disk is settled, or it is the one in doubt. */
  lemma CommitShape(s: System, id: nat, env: Env)
    requires Inv(s) && id in s.callers && s.callers[id].pc.Writing?
    requires CasUpdate(s, id, env).0.disk != s.store.disk
    ensures var (store, result) := CasUpdate(s, id, env);
            && s.doubt == None && !s.store.uncertain && |s.owners| == |s.run|
            && (if store.uncertain then store.doc == s.store.doc && result == Failed(Uncertain)
                else store.doc == store.disk && result.Updated? && !result.replayed)
  {
    hide Key, Plan, Evict, Apply, CallerTells, DocTells, ValidOperationId;
  }

  lemma CommitKeeps(s: System, id: nat, env: Env)
    requires Inv(s) && id in s.callers && s.callers[id].pc.Writing?
    requires CasUpdate(s, id, env).0.disk != s.store.disk
    ensures Inv(AfterCas(s, id, env))
  {
    hide CasUpdate, Inv, DocTells;
    CommitShape(s, id, env);
    CommitStoreTells(s, id, env);
    var store := CasUpdate(s, id, env).0;
    if store.uncertain {
      DoubtKeeps(s, id, CommitOf(s, id, env), store);
    } else {
      SettledKeeps(s, id, CommitOf(s, id, env), store);
    }
  }

  lemma DoubtKeeps(s: System, id: nat, commit: Commit, store: State)
    requires Inv(s) && id in s.callers && s.callers[id].pc.Writing? && s.doubt == None && commit.call == s.callers[id].call
    requires store.uncertain && store.doc == s.store.doc && DocTells(store.disk, s.run + [commit])
    ensures Inv(SetPc(s, id, Returned(Error(Store(Uncertain)))).(store := store, doubt := Some(Doubt(commit, id))))
  {
    hide CallerTells, DocTells;
    var c := s.callers[id];
    assert CallerTells(s.run, s.owners, id, c);
    NotYetOwner(s.run, s.owners, id, c);
    LeftInDoubt(s.run, s.owners, id, c);
  }

  lemma SettledKeeps(s: System, id: nat, commit: Commit, store: State)
    requires Inv(s) && id in s.callers && s.callers[id].pc.Writing? && s.doubt == None && commit.call == s.callers[id].call
    requires !store.uncertain && store.doc == store.disk && DocTells(store.disk, s.run + [commit])
    ensures Inv(SetPc(s, id, Returned(Committed)).(store := store, run := s.run + [commit], owners := s.owners + [id]))
  {
    hide CallerTells, DocTells;
    var c := s.callers[id];
    var t := SetPc(s, id, Returned(Committed)).(store := store, run := s.run + [commit], owners := s.owners + [id]);
    assert CallerTells(s.run, s.owners, id, c);
    NotYetOwner(s.run, s.owners, id, c);
    forall other | other in t.callers ensures CallerTells(t.run, t.owners, other, t.callers[other]) {
      assert CallerTells(s.run, s.owners, other, s.callers[other]);
      if other == id {
        OwnerTells(s.run, s.owners, id, c, commit, false);
      } else {
        OthersKeep(s.run, s.owners, other, t.callers[other], commit, id);
      }
    }
  }

  lemma LeftInDoubt(run: seq<Commit>, owners: seq<nat>, id: nat, c: Caller)
    requires CallerTells(run, owners, id, c) && id !in owners
    ensures CallerTells(run, owners, id, c.(pc := Returned(Error(Store(Uncertain)))))
  {
    hide Plan, Last, At, HasTwin;
  }

  lemma NotYetOwner(run: seq<Commit>, owners: seq<nat>, id: nat, c: Caller)
    requires CallerTells(run, owners, id, c) && c.pc.Writing?
    ensures id !in owners
  {
  }

  /** Every step keeps the invariant. */
  lemma StepKeeps(s: System, step: Step)
    requires Inv(s) && Enabled(s, step)
    ensures Inv(Next(s, step))
  {
    hide Inv, CasUpdate, ReadPc, AfterReopen;
    match step
    case Begin(id, call) => BeginKeeps(s, id, call);
    case Read(id, now, cancelled) => ReadKeeps(s, id, now, cancelled);
    case Cas(id, env) =>
      if CasUpdate(s, id, env).0.disk == s.store.disk {
        QuietCasKeeps(s, id, env);
      } else {
        CommitKeeps(s, id, env);
      }
    case GiveUp(id) => GiveUpKeeps(s, id);
    case CloseStore => CloseKeeps(s);
    case ReopenStore(survives) => ReopenKeeps(s, survives);
  }

  lemma GiveUpKeeps(s: System, id: nat)
    requires Inv(s) && id in s.callers && s.callers[id].pc.Ready? && s.callers[id].pc.attempt >= MAX_ATTEMPTS
    ensures Inv(SetPc(s, id, Returned(Error(GaveUp(s.callers[id].call)))))
  {
    hide Sequential, Plan, Last, At, ReceiptTells, OperationsNamed;
    assert CallerTells(s.run, s.owners, id, s.callers[id]);
    PcKeeps(s, id, Returned(Error(GaveUp(s.callers[id].call))));
  }

  lemma InitInv()
    ensures Inv(Init)
  {
  }

  lemma {:induction false} TraceInv(states: seq<System>, steps: seq<Step>, i: nat)
    requires Trace(states, steps) && i < |states|
    ensures Inv(states[i])
  {
    hide Inv, Next, Enabled;
    if i == 0 {
      InitInv();
    } else {
      TraceInv(states, steps, i - 1);
      StepKeeps(states[i - 1], steps[i - 1]);
    }
  }

  // ---------- What follows for every run ----------

  /**
   Linearizability.  Whatever the interleaving, the documents that reached the disk are
   those of a sequential run of whole transactions, one per revision.  The store answers
   from the last settled one; the disk holds that, or the write in doubt after it, and
   opening the store again finds either, so nothing that was reported committed is lost.
   */
  lemma DiskIsSequential(states: seq<System>, steps: seq<Step>)
    requires Trace(states, steps)
    ensures var s := states[|states| - 1];
            && Sequential(Empty, s.run) && Last(Empty, s.run) == s.store.doc.snapshot && s.store.doc.snapshot.revision == |s.run|
            && Sequential(Empty, Written(s)) && Last(Empty, Written(s)) == s.store.disk.snapshot
            && (forall i | 0 <= i < |s.run| :: s.run[i].after.revision == i + 1)
            && (s.store.uncertain <==> s.doubt.Some?) && (!s.store.uncertain ==> s.store.doc == s.store.disk)
  {
    var s := states[|states| - 1];
    TraceInv(states, steps, |states| - 1);
    hide Next, Enabled, Effect, ReceiptTells, CallerTells;
    forall i | 0 <= i < |s.run| ensures s.run[i].after.revision == i + 1 {
      AfterRevision(s.run, i);
    }
  }

  /** Opening the store again finds the settled documents, with or without the write in doubt. */
  lemma ReopenIsSequential(states: seq<System>, steps: seq<Step>, survives: bool)
    requires Trace(states, steps)
    ensures var s := states[|states| - 1];
            var t := AfterReopen(s, survives);
            && t.run == (if survives then Written(s) else s.run) && s.run <= t.run
            && Sequential(Empty, t.run) && Last(Empty, t.run) == t.store.doc.snapshot && t.store.doc == t.store.disk
  {
    TraceInv(states, steps, |states| - 1);
    hide Inv;
    Reopened(states[|states| - 1], survives);
  }

  lemma Reopened(s: System, survives: bool)
    requires Inv(s)
    ensures var t := AfterReopen(s, survives);
            && s.run <= t.run && Sequential(Empty, t.run) && t.store.doc == t.store.disk
            && Last(Empty, t.run) == t.store.doc.snapshot && (survives ==> t.run == Written(s)) && (!survives ==> t.run == s.run)
  {
    hide CallerTells, ReceiptTells, Sequential, OperationsNamed, Last;
  }

  lemma AfterRevision(run: seq<Commit>, i: nat)
    requires Sequential(Empty, run) && i < |run|
    ensures run[i].after.revision == i + 1
  {
    hide Effect;
    BeforeIsAt(run, i);
    PrefixSequential(Empty, run, i);
    EmptyPublished();
    SequentialPublishes(Empty, run[..i]);
    EffectPublishes(run[i].call, run[i].before, run[i].now);
  }

  /** How often the writes of a caller reached the disk. */
  function Writes(owners: seq<nat>, id: nat): nat {
    if owners == [] then 0 else Writes(owners[..|owners| - 1], id) + if owners[|owners| - 1] == id then 1 else 0
  }

  lemma {:induction false} WritesCount(owners: seq<nat>, id: nat)
    ensures id !in owners ==> Writes(owners, id) == 0
    ensures OwnsOne(owners, id) ==> Writes(owners, id) == 1
  {
    if owners != [] {
      var front, last := owners[..|owners| - 1], |owners| - 1;
      assert owners == front + [owners[last]];
      WritesCount(front, id);
      if OwnsOne(owners, id) && owners[last] != id {
        assert id in front;
      }
    }
  }

  /**
   The result of a call tells its trace.  A commit is written once; success without
   a write, a conflict and every error but a write in doubt leave nothing; a replay
   left nothing because an identical call had already written the same patch.  A
   caller that gave up lost to three commits of others.
   */
  lemma ResultTellsTrace(states: seq<System>, steps: seq<Step>, id: nat)
    requires Trace(states, steps)
    requires var s := states[|states| - 1]; id in s.callers && s.callers[id].pc.Returned?
    ensures var s := states[|states| - 1];
            var c, writes := s.callers[id], Writes(s.owners, id);
            && |s.owners| == |s.run| && (forall i | 0 <= i < |s.run| && s.owners[i] == id :: s.run[i].call == c.call)
            && (LostEveryAttempt(c.call, c.pc.result) ==> |s.run| >= c.since + 3)
            && match c.pc.result
               case Committed => writes == 1
               case Nothing => writes == 0
               case Replayed => writes == 0 && HasTwin(s.run, c.call)
               case Error(e) => if e == Store(Uncertain) then writes <= 1 else writes == 0
  {
    hide Next, Enabled, Sequential, Last, ReceiptTells, Plan, At, Writes;
    var s := states[|states| - 1];
    TraceInv(states, steps, |states| - 1);
    assert CallerTells(s.run, s.owners, id, s.callers[id]);
    WritesCount(s.owners, id);
  }

  /** A caller stays the call that its first step began, and remembers the commits there were. */
  lemma {:induction false} BegunAt(states: seq<System>, steps: seq<Step>, id: nat, k: nat, n: nat)
    requires Trace(states, steps) && k < n < |states| && steps[k].Begin? && steps[k].id == id
    ensures id in states[n].callers && states[n].callers[id].call == steps[k].call
    ensures states[n].callers[id].since == |states[k].run| && states[k].run <= states[n].run
    decreases n
  {
    hide CasUpdate, CasPc, ReadPc, CommitOf;
    if n > k + 1 {
      BegunAt(states, steps, id, k, n - 1);
    }
    assert Enabled(states[n - 1], steps[n - 1]) && states[n] == Next(states[n - 1], steps[n - 1]);
  }

  lemma ClosedStep(s: System, step: Step)
    requires Enabled(s, step) && s.store.closed && !step.ReopenStore?
    ensures var t := Next(s, step);
            t.store == s.store && t.run == s.run && t.owners == s.owners && t.doubt == s.doubt
    ensures step.Read? ==> Next(s, step).callers[step.id].pc == Returned(Error(Store(if step.cancelled then Cancelled else Unavailable)))
    ensures step.Cas? ==>
              Next(s, step).callers[step.id].pc == Returned(Error(Store(if step.env.cancelled then Cancelled else Unavailable)))
  {
    hide Plan, Apply, Key, ValidOperationId, Evict;
  }

  /**
   From closing to opening again the store answers no one and nothing reaches the disk;
   both can happen at any moment.
   */
  lemma {:induction false} ClosedIsQuiet(states: seq<System>, steps: seq<Step>, k: nat, n: nat)
    requires Trace(states, steps) && k < n < |states| && steps[k] == CloseStore
    requires forall j | k < j < n :: !steps[j].ReopenStore?
    ensures Enabled(states[n], CloseStore) && forall b :: Enabled(states[n], ReopenStore(b))
    ensures states[n].store == states[k].store.(closed := true) && Written(states[n]) == Written(states[k])
    ensures n < |steps| && (steps[n].Read? || steps[n].Cas?) ==>
              && states[n + 1].callers[steps[n].id].pc.Returned?
              && states[n + 1].callers[steps[n].id].pc.result in {Error(Store(Cancelled)), Error(Store(Unavailable))}
    decreases n
  {
    hide CasUpdate, CasPc, ReadPc, CommitOf;
    if n == k + 1 {
      assert states[n] == Next(states[k], steps[k]);
    } else {
      ClosedIsQuiet(states, steps, k, n - 1);
      ClosedStep(states[n - 1], steps[n - 1]);
    }
    if n < |steps| && (steps[n].Read? || steps[n].Cas?) {
      ClosedStep(states[n], steps[n]);
    }
  }

  /** The writes that a caller has tried before step n. */
  ghost function Tries(steps: seq<Step>, id: nat, n: nat): set<nat>
    requires n <= |steps|
  {
    set k: nat | k < n && steps[k].Cas? && steps[k].id == id
  }

  lemma TriesGrow(steps: seq<Step>, id: nat, n: nat)
    requires n < |steps|
    ensures |Tries(steps, id, n + 1)| == |Tries(steps, id, n)| + if steps[n].Cas? && steps[n].id == id then 1 else 0
  {
    assert Tries(steps, id, n + 1) == Tries(steps, id, n) + if steps[n].Cas? && steps[n].id == id then {n} else {};
  }

  lemma NoTriesYet(steps: seq<Step>, id: nat)
    ensures Tries(steps, id, 0) == {}
  {
  }

  /** The attempt counter counts the tries. */
  predicate Counts(s: System, id: nat, tries: nat) {
    if id !in s.callers then tries == 0
    else
      match s.callers[id].pc
      case Ready(k) => tries == k <= 3
      case Writing(k, _, _, _) => tries == k < 3
      case Returned(_) => tries <= 3
  }

  /** No call tries to write more than three times, and one gives up only after the third. */
  lemma {:induction false} ThreeTries(states: seq<System>, steps: seq<Step>, id: nat, n: nat)
    requires Trace(states, steps) && n < |states|
    ensures Counts(states[n], id, |Tries(steps, id, n)|) && |Tries(steps, id, n)| <= 3
    ensures n < |steps| && steps[n] == GiveUp(id) ==> |Tries(steps, id, n)| == 3
  {
    hide CasUpdate, CasPc, ReadPc, CommitOf, Tries, Next, Enabled;
    if n == 0 {
      NoTriesYet(steps, id);
    } else {
      ThreeTries(states, steps, id, n - 1);
      TriesGrow(steps, id, n - 1);
      CountStep(states[n - 1], steps[n - 1], id, |Tries(steps, id, n - 1)|);
    }
    if n < |steps| && steps[n] == GiveUp(id) {
      GivesUpAt(states[n], id);
    }
  }

  lemma GivesUpAt(s: System, id: nat)
    requires Enabled(s, GiveUp(id))
    ensures id in s.callers && s.callers[id].pc.Ready? && s.callers[id].pc.attempt >= 3
  {
  }

  lemma CountStep(s: System, step: Step, id: nat, tries: nat)
    requires Enabled(s, step) && Counts(s, id, tries)
    ensures Counts(Next(s, step), id, tries + if step.Cas? && step.id == id then 1 else 0)
  {
    hide CasUpdate, CommitOf, Plan;
  }

  /**
   A lifecycle call that reports a conflict, or a Stage that claims nothing and reports a
   stale approval, began at least three commits of other callers earlier.
   */
  lemma GaveUpLostThree(states: seq<System>, steps: seq<Step>, id: nat, k: nat)
    requires Trace(states, steps) && k < |steps| && steps[k].Begin? && steps[k].id == id
    requires var s, call := states[|states| - 1], steps[k].call;
             && id in s.callers
             && (if call.Stage? then
                   call.request.expectedRevision == 0 && call.request.blanket.None?
                   && s.callers[id].pc == Returned(Error(CallError.Stale))
                 else !call.Configure? && s.callers[id].pc == Returned(Error(Store(Conflict))))
    ensures var s := states[|states| - 1];
            && |s.run| >= |states[k].run| + 3
            && |s.owners| == |s.run| && forall i | 0 <= i < |s.owners| :: s.owners[i] != id
  {
    hide Next, Enabled, Sequential, Last, ReceiptTells, Plan, At, Writes;
    var s := states[|states| - 1];
    TraceInv(states, steps, |states| - 1);
    BegunAt(states, steps, id, k, |states| - 1);
    assert CallerTells(s.run, s.owners, id, s.callers[id]);
  }

  /**
   The one error that can leave a trace: a write whose durability is in doubt fails for
   its caller.  When the store is opened again it is the document if it survived, and
   then it counts as the caller's one write; else the document is the one before.
   */
  lemma DoubtfulWriteSurvives(s: System, id: nat, env: Env, survives: bool)
    requires id in s.callers && s.callers[id].pc.Writing? && !s.store.uncertain
    requires CasUpdate(s, id, env).1 == Failed(Uncertain)
    requires Inv(s)
    ensures LeavesDoubt(s, id, AfterCas(s, id, env))
    ensures SettlesDoubt(s, id, survives, AfterReopen(AfterCas(s, id, env), survives))
  {
    hide CasUpdate, Inv, DocTells, Effect;
    ReachesInDoubt(s, id, env);
    CommitShape(s, id, env);
    CommitStoreTells(s, id, env);
    LastIsEffect(s, id, env);
    DocOfRun(CasUpdate(s, id, env).0.disk, s.run + [CommitOf(s, id, env)]);
    DocRevision(s);
  }

  lemma ReachesInDoubt(s: System, id: nat, env: Env)
    requires id in s.callers && s.callers[id].pc.Writing? && !s.store.uncertain && Inv(s)
    requires CasUpdate(s, id, env).1 == Failed(Uncertain)
    ensures CasUpdate(s, id, env).0.disk != s.store.disk && CasUpdate(s, id, env).0.uncertain
  {
    hide Update, CallerTells, DocTells, Key;
    var c := s.callers[id];
    OnlyDoubtIsUncertain(s.store, c.pc.patch, Expected(c.call, c.pc.snap), Key(c.call, c.pc.snap.revision), WriteEnv(c.call, env));
  }

  /** The caller is told of the doubt, and nothing is settled. */
  ghost predicate LeavesDoubt(s: System, id: nat, t: System)
    requires id in s.callers
  {
    && t.callers == s.callers[id := s.callers[id].(pc := Returned(Error(Store(Uncertain))))]
    && t.owners == s.owners && t.run == s.run && t.store.doc == s.store.doc
  }

  /** The write is the document and the caller's, or there is no trace of it. */
  ghost predicate SettlesDoubt(s: System, id: nat, survives: bool, u: System)
    requires id in s.callers && s.callers[id].pc.Writing?
  {
    if survives then
      && u.owners == s.owners + [id] && u.store.doc.snapshot.revision == s.store.doc.snapshot.revision + 1
      && Effect(s.callers[id].call, s.store.doc.snapshot, s.callers[id].pc.now) == Some(u.store.doc.snapshot)
    else u.owners == s.owners && u.run == s.run && u.store.doc == s.store.doc
  }

  lemma LastIsEffect(s: System, id: nat, env: Env)
    requires id in s.callers && s.callers[id].pc.Writing? && Inv(s)
    requires CasUpdate(s, id, env).0.disk != s.store.disk
    ensures Effect(s.callers[id].call, s.store.doc.snapshot, s.callers[id].pc.now) == Some(CasUpdate(s, id, env).0.disk.snapshot)
  {
    CommitIsEffect(s, id, env);
    hide CasUpdate, Inv, Effect, Plan;
    var all := s.run + [CommitOf(s, id, env)];
    assert all[|all| - 1] == CommitOf(s, id, env);
  }

  lemma DocOfRun(doc: Document, run: seq<Commit>)
    requires DocTells(doc, run)
    ensures doc.snapshot.revision == |run|
  {
  }

  lemma DocRevision(s: System)
    requires Inv(s)
    ensures s.store.doc.snapshot.revision == |s.run|
  {
    hide CallerTells;
  }

  lemma OnlyDoubtIsUncertain(st: State, patch: Patch, expected: nat, key: string, env: Env)
    requires !st.uncertain && st.doc == st.disk && Update(st, patch, expected, key, env).1 == Failed(Uncertain)
    ensures Update(st, patch, expected, key, env).0.disk != st.disk && Update(st, patch, expected, key, env).0.uncertain
  {
    hide Evict, Apply;
    var applied := Apply(st.doc.snapshot, patch);
  }

  /** On disk, in every run, each grant waits for the operation that staged it. */
  lemma GrantsOnDiskKeepTheirOrigin(states: seq<System>, steps: seq<Step>, id: string, name: string)
    requires Trace(states, steps)
    ensures var s := states[|states| - 1];
            var holder := Holder(s.store.disk.snapshot, id, name);
            holder.Some? ==> holder == Origin(Written(s), id, name)
  {
    hide Next, Enabled, Holder, Origin, ReceiptTells, CallerTells, Last;
    TraceInv(states, steps, |states| - 1);
    HolderIsOrigin(Written(states[|states| - 1]), id, name);
  }

  // ---------- What a Stage was planned against, and its audit line ----------

  /**
   In every interleaving a Stage whose write reached the disk was planned against the very
   document it was written to: the revision it claims, and the switch its blanket tag
   names, are those of the document before it.
   */
  lemma CommitsHonourClaims(states: seq<System>, steps: seq<Step>, i: nat)
    requires Trace(states, steps) && i < |Written(states[|states| - 1])|
    requires Written(states[|states| - 1])[i].call.Stage?
    ensures var run := Written(states[|states| - 1]);
            var asked := run[i].call.request;
            && run[i].before == At(run, i) && run[i].before.revision == i
            && (asked.expectedRevision == 0 || asked.expectedRevision == i)
            && (asked.blanket.Some? ==> asked.blanket.value == run[i].before.blanketRevision)
  {
    hide Next, Enabled, Effect, ReceiptTells, CallerTells, Last, Published;
    TraceInv(states, steps, |states| - 1);
    EmptyPublished();
    RunHonoursClaims(Empty, Written(states[|states| - 1]), i);
  }

  /**
   A read step of a Stage, by the fields of its request: it is told that its approval is
   stale exactly when its operation is not recorded and a claim does not hold, and
   returns without a write exactly when the operation is recorded or every name is held.
   */
  lemma ReadAnswersIff(s: System, id: nat, now: string)
    requires id in s.callers && s.callers[id].pc.Ready? && s.callers[id].call.Stage? && Usable(s.store).None?
    ensures var doc, asked := s.store.doc.snapshot, s.callers[id].call.request;
            && (ReadPc(s, id, now, false) == Returned(Error(CallError.Stale)) <==> !Recorded(doc, asked) && !ClaimsHold(doc, asked))
            && (ReadPc(s, id, now, false) == Returned(Nothing) <==>
                  Recorded(doc, asked)
                  || (ClaimsHold(doc, asked) && forall k | 0 <= k < |asked.ops| :: HeldByPackage(doc, asked, asked.ops[k])))
  {
    hide Plan, Recorded, ClaimsHold, HeldByPackage;
    StageDecides(s.store.doc.snapshot, s.callers[id].call.request, now);
  }

  /** Whose the writes on disk were. */
  function Writers(s: System): seq<nat> {
    if s.doubt.Some? then s.owners + [s.doubt.value.owner] else s.owners
  }

  /** Only a write step adds to what reached the disk, and one that is audited only if its line was accepted. */
  lemma StepWrites(s: System, step: Step)
    requires Inv(s) && Enabled(s, step)
    ensures var t := Next(s, step);
            (Written(t) <= Written(s) && Writers(t) <= Writers(s))
            || (&& step.Cas? && Written(t) == Written(s) + [CommitOf(s, step.id, step.env)]
                && Writers(t) == Writers(s) + [step.id]
                && (s.callers[step.id].call.Stage? || s.callers[step.id].call.Configure? ==> step.env.auditAccepts)
                && (s.callers[step.id].call.Configure? ==> s.callers[step.id].call.expected == |Written(s)|))
  {
    hide Inv, CasUpdate, ReadPc, CommitOf;
    if step.Cas? && CasUpdate(s, step.id, step.env).0.disk != s.store.disk {
      CommitShape(s, step.id, step.env);
      CommitIsEffect(s, step.id, step.env);
      if IsAudited(s.callers[step.id].call) {
        CommitIsAudited(s, step.id, step.env);
      }
    }
  }

  lemma CommitIsAudited(s: System, id: nat, env: Env)
    requires Inv(s) && id in s.callers && s.callers[id].pc.Writing? && IsAudited(s.callers[id].call)
    requires CasUpdate(s, id, env).0.disk != s.store.disk
    ensures env.auditAccepts
  {
    hide Update, CallerTells, DocTells, Key;
    var c := s.callers[id];
    WritesIff(s.store, c.pc.patch, Expected(c.call, c.pc.snap), Key(c.call, c.pc.snap.revision), WriteEnv(c.call, env));
  }

  /**
   In every interleaving each Stage and each edit on disk, settled or in doubt, was put
   there by a write step of its caller whose audit line was accepted; an edit at the
   revision that it names.
   */
  lemma {:induction false} GrantsAreAudited(states: seq<System>, steps: seq<Step>, i: nat, n: nat) returns (k: nat)
    requires Trace(states, steps) && n < |states| && i < |Written(states[n])|
    requires Written(states[n])[i].call.Stage? || Written(states[n])[i].call.Configure?
    ensures k < n && steps[k].Cas? && steps[k].env.auditAccepts
    ensures steps[k].id in states[k].callers && states[k].callers[steps[k].id].pc.Writing?
    ensures Written(states[n])[i] == CommitOf(states[k], steps[k].id, steps[k].env)
    ensures i < |Writers(states[n])| && Writers(states[n])[i] == steps[k].id
    ensures Written(states[n])[i].call.Configure? ==> Written(states[n])[i].call.expected == i
    decreases n
  {
    hide Inv, Next, Writers, CommitOf;
    assert n > 0;
    TraceInv(states, steps, n - 1);
    StepWrites(states[n - 1], steps[n - 1]);
    WritersMatch(states, steps, n);
    if i < |Written(states[n - 1])| {
      k := GrantsAreAudited(states, steps, i, n - 1);
    } else {
      k := n - 1;
      CommitCall(states[k], steps[k].id, steps[k].env);
    }
  }

  lemma CommitCall(s: System, id: nat, env: Env)
    requires id in s.callers && s.callers[id].pc.Writing?
    ensures CommitOf(s, id, env).call == s.callers[id].call
  {
  }

  lemma WritersMatch(states: seq<System>, steps: seq<Step>, n: nat)
    requires Trace(states, steps) && n < |states|
    ensures |Writers(states[n])| == |Written(states[n])|
  {
    hide Next, CallerTells, DocTells;
    TraceInv(states, steps, n);
  }

  /** The audit decides a write of Stage and of an edit, and no other call. */
  lemma AuditDecides(s: System, id: nat, env: Env, accepts: bool)
    requires Inv(s) && id in s.callers && s.callers[id].pc.Writing?
    ensures var c := s.callers[id].call;
            c.Abort? || c.Remove? || c.Reconcile? ==> AfterCas(s, id, env.(auditAccepts := accepts)) == AfterCas(s, id, env)
    ensures var c := s.callers[id].call;
            (c.Stage? || c.Configure?) && !env.auditAccepts ==>
              AfterCas(s, id, env).store == s.store && Written(AfterCas(s, id, env)) == Written(s)
  {
    hide Update, CallerTells, DocTells, Key;
    var c := s.callers[id];
    WritesIff(s.store, c.pc.patch, Expected(c.call, c.pc.snap), Key(c.call, c.pc.snap.revision), WriteEnv(c.call, env));
  }

  /**
   A valid operation ID is not always short enough to stage with: the store also
   limits the key that Stage and Abort derive from it.
   */
  lemma StageKeyFits(c: Call, revision: nat)
    requires match c case Stage(s) => ValidOperationId(s.operationId) case Abort(op) => ValidOperationId(op) case _ => false
    ensures var op := if c.Stage? then c.request.operationId else c.operationId;
            ValidOperationId(Key(c, revision)) <==> |op| + |Dec(revision)| <= 120
  {
    hide Dec;
    var op := if c.Stage? then c.request.operationId else c.operationId;
    var front := if c.Stage? then "stage-" else "abort-";
    assert Key(c, revision) == front + op + "-r" + Dec(revision);
    KeyFits(front, op, Dec(revision));
  }

  /** An ID of 120 to 128 characters is valid and can neither be staged nor aborted. */
  lemma LongIdDoesNotFit(n: nat, revision: nat)
    requires 120 <= n <= 128
    ensures var id := seq(n, _ => 'x');
            ValidOperationId(id) && !ValidOperationId(Key(Abort(id), revision))
  {
    var id := seq(n, _ => 'x');
    assert forall c | c in id :: c == 'x';
    StageKeyFits(Abort(id), revision);
  }

  lemma KeyFits(front: string, op: string, numeral: string)
    requires front == "stage-" || front == "abort-"
    requires ValidOperationId(op) && numeral != "" && AllDigits(numeral)
    ensures ValidOperationId(front + op + "-r" + numeral) <==> |op| + |numeral| <= 120
  {
    var key := front + op + "-r" + numeral;
    PrintableIff(op);
    PrintableIff(key);
    assert Printable(numeral) && Printable(front);
    assert key[0] == front[0] && key[|key| - 1] == numeral[|numeral| - 1];
  }

  lemma PrintableIff(s: string)
    ensures Printable(s) <==> forall ch | ch in s :: ' ' <= ch && ch != '\U{7F}'
  {
    if forall ch | ch in s :: ' ' <= ch && ch != '\U{7F}' {
      forall i | 0 <= i < |s| ensures ' ' <= s[i] && s[i] != '\U{7F}' {
        assert s[i] in s;
      }
    }
  }

  predicate Printable(s: string) {
    forall i | 0 <= i < |s| :: ' ' <= s[i] && s[i] != '\U{7F}'
  }
}
