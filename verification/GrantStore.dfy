/**
 The store of the grant document: one compare-and-set write with idempotent
 replay by operation ID, a bounded list of receipts, and a disk that may answer
 a write in doubt.
 */
module GrantStore {
  import opened Basics
  import opened GrantDocument

  const MAX_RECEIPTS := 256

  /** `body` stands for the digest of the patch; digests are taken to identify patches. */
  datatype Receipt = Receipt(body: Patch, revision: nat)

  datatype Document = Document(snapshot: Snapshot, receipts: map<string, Receipt>)

  datatype Error =
    | Cancelled | Unavailable | Uncertain | BadOperationId
    | OperationMismatch | Conflict | Invalid | AuditFailed | NotPersisted

  datatype Result = Updated(snapshot: Snapshot, replayed: bool) | Failed(error: Error)

  /** How the file system answers: durable, refused, or renamed but not known to be durable. */
  datatype DiskAnswer = Durable | Refused | InDoubt

  /** What the outside decides about one call. */
  datatype Env = Env(cancelled: bool, auditAccepts: bool, disk: DiskAnswer)

  datatype State = StoreState(doc: Document, disk: Document, closed: bool, uncertain: bool)

  const EmptyDocument := Document(Empty, map[])

  predicate IsOldest(receipts: map<string, Receipt>, id: string)
    requires id in receipts
  {
    forall other | other in receipts :: receipts[id].revision <= receipts[other].revision
  }

  function Evict(receipts: map<string, Receipt>): map<string, Receipt> {
    if |receipts| <= MAX_RECEIPTS then receipts
    else map id | id in receipts && !IsOldest(receipts, id) :: receipts[id]
  }

  function Usable(st: State): Option<Error> {
    if st.closed then Some(Unavailable) else if st.uncertain then Some(Uncertain) else None
  }

  /** The outcome of UpdateAudited and the state it leaves. */
  function Update(st: State, patch: Patch, expected: nat, operationId: string, env: Env): (State, Result) {
    if env.cancelled then (st, Failed(Cancelled))
    else if Usable(st).Some? then (st, Failed(Usable(st).value))
    else if !ValidOperationId(operationId) then (st, Failed(BadOperationId))
    else if operationId in st.doc.receipts then
      if st.doc.receipts[operationId].body != patch then (st, Failed(OperationMismatch))
      else (st, Updated(st.doc.snapshot, true))
    else if expected != st.doc.snapshot.revision then (st, Failed(Conflict))
    else
      match Apply(st.doc.snapshot, patch)
      case None => (st, Failed(Invalid))
      case Some(applied) =>
        var next := applied.(revision := st.doc.snapshot.revision + 1);
        var doc := Document(next, Evict(st.doc.receipts[operationId := Receipt(patch, next.revision)]));
        if !env.auditAccepts then (st, Failed(AuditFailed))
        else
          match env.disk
          case Refused => (st, Failed(NotPersisted))
          case InDoubt => (st.(disk := doc, uncertain := true), Failed(Uncertain))
          case Durable => (st.(doc := doc, disk := doc), Updated(next, false))
  }

  /** Opening the store again reads the disk; a write in doubt is there or not. */
  function Reopen(st: State, survives: bool): State {
    var found := if st.uncertain && !survives then st.doc else st.disk;
    StoreState(found, found, false, false)
  }

  /** A store opened again answers, from what was on the disk or, if a write in doubt is gone, from the document before it. */
  lemma ReopenAnswers(st: State, survives: bool)
    requires !st.uncertain ==> st.doc == st.disk
    ensures var t := Reopen(st, survives);
            && !t.closed && !t.uncertain && Usable(t).None? && t.doc == t.disk
            && t.doc == if survives then st.disk else st.doc
  {
  }

  /** Every receipt is of its own revision, none later than the document. */
  ghost predicate ReceiptsInOrder(doc: Document) {
    && |doc.receipts| <= MAX_RECEIPTS
    && (forall id | id in doc.receipts :: doc.receipts[id].revision <= doc.snapshot.revision)
    && DistinctRevisions(doc.receipts)
  }

  lemma OldestExists(receipts: map<string, Receipt>, among: set<string>) returns (id: string)
    requires among != {} && among <= receipts.Keys
    ensures id in among
    ensures forall other | other in among :: receipts[id].revision <= receipts[other].revision
    decreases |among|
  {
    var x :| x in among;
    var rest := among - {x};
    if rest == {} {
      id := x;
      assert among == {x};
    } else {
      var y := OldestExists(receipts, rest);
      id := if receipts[x].revision <= receipts[y].revision then x else y;
    }
  }

  ghost predicate DistinctRevisions(receipts: map<string, Receipt>) {
    forall a, b | a in receipts && b in receipts && a != b :: receipts[a].revision != receipts[b].revision
  }

  lemma EvictIsOne(receipts: map<string, Receipt>, oldest: string)
    requires |receipts| > MAX_RECEIPTS && DistinctRevisions(receipts)
    requires oldest in receipts && IsOldest(receipts, oldest)
    ensures Evict(receipts) == receipts - {oldest}
  {
    forall id | id in receipts && id != oldest ensures !IsOldest(receipts, id) {
      assert receipts[oldest].revision < receipts[id].revision;
    }
  }

  /** Too many receipts are one too many, and eviction takes the oldest. */
  lemma EvictOne(doc: Document, operationId: string, r: Receipt) returns (oldest: string)
    requires ReceiptsInOrder(doc) && operationId !in doc.receipts && r.revision == doc.snapshot.revision + 1
    requires |doc.receipts[operationId := r]| > 256
    ensures var all := doc.receipts[operationId := r];
            && oldest in all && oldest != operationId && IsOldest(all, oldest) && DistinctRevisions(all)
            && Evict(all) == all - {oldest} && |all| == 257
  {
    var all := doc.receipts[operationId := r];
    assert all.Keys == doc.receipts.Keys + {operationId};
    assert doc.receipts.Keys != {};
    oldest := OldestExists(all, all.Keys);
    var other :| other in doc.receipts;
    assert all[other].revision < r.revision;
    EvictIsOne(all, oldest);
  }

  /**
   Eviction after a write: exactly one receipt goes when there are too many, it is
   the oldest, and the one just written stays.
   */
  lemma EvictDropsTheOldest(doc: Document, operationId: string, r: Receipt)
    requires ReceiptsInOrder(doc) && operationId !in doc.receipts && r.revision == doc.snapshot.revision + 1
    ensures var all, left := doc.receipts[operationId := r], Evict(doc.receipts[operationId := r]);
            && left.Keys <= all.Keys && (forall id | id in left :: left[id] == all[id])
            && operationId in left
            && |left| == (if |all| <= 256 then |all| else 256)
            && forall gone, id | gone in all && gone !in left && id in left :: all[gone].revision < all[id].revision
  {
    var all := doc.receipts[operationId := r];
    if |all| > 256 {
      var oldest := EvictOne(doc, operationId, r);
      assert (all - {oldest}).Keys == all.Keys - {oldest};
      hide Evict, ReceiptsInOrder;
    }
  }

  /** The receipts of the next document, before and after eviction. */
  lemma WithReceipt(doc: Document, operationId: string, r: Receipt)
    requires ReceiptsInOrder(doc) && operationId !in doc.receipts && r.revision == doc.snapshot.revision + 1
    ensures var all := doc.receipts[operationId := r];
            && |all| <= MAX_RECEIPTS + 1 && DistinctRevisions(all)
            && |Evict(all)| <= MAX_RECEIPTS && DistinctRevisions(Evict(all))
            && forall id | id in Evict(all) :: Evict(all)[id].revision <= r.revision
  {
    hide Evict, DistinctRevisions, IsOldest;
    AddedReceipt(doc, operationId, r);
    EvictDropsTheOldest(doc, operationId, r);
    SubReceipts(doc.receipts[operationId := r], Evict(doc.receipts[operationId := r]));
  }

  lemma AddedReceipt(doc: Document, operationId: string, r: Receipt)
    requires ReceiptsInOrder(doc) && operationId !in doc.receipts && r.revision == doc.snapshot.revision + 1
    ensures var all := doc.receipts[operationId := r]; |all| <= MAX_RECEIPTS + 1 && DistinctRevisions(all)
  {
    assert doc.receipts[operationId := r].Keys == doc.receipts.Keys + {operationId};
  }

  lemma SubReceipts(all: map<string, Receipt>, left: map<string, Receipt>)
    requires DistinctRevisions(all) && left.Keys <= all.Keys && forall id | id in left :: left[id] == all[id]
    ensures DistinctRevisions(left)
  {
  }

  /**
   Update either leaves the store alone or puts the next revision on disk, and the
   result tells which: only a publication and a write in doubt reach the disk.
   */
  lemma UpdateShape(st: State, patch: Patch, expected: nat, operationId: string, env: Env)
    requires !st.uncertain ==> st.doc == st.disk
    ensures var (after, res) := Update(st, patch, expected, operationId, env);
            if after.disk == st.disk then
              && after == st && (res.Updated? ==> res.replayed)
              && (res == Failed(Conflict) ==> !st.uncertain && !st.closed && expected != st.doc.snapshot.revision)
              && (res.Updated? ==> !st.uncertain && operationId in st.doc.receipts && st.doc.receipts[operationId].body == patch)
            else
              && !st.uncertain && !st.closed
              && operationId !in st.doc.receipts && expected == st.doc.snapshot.revision
              && Apply(st.doc.snapshot, patch).Some?
              && after.disk.snapshot == Apply(st.doc.snapshot, patch).value.(revision := expected + 1)
              && after.disk.receipts == Evict(st.doc.receipts[operationId := Receipt(patch, expected + 1)])
              && (after.uncertain || after.doc == after.disk) && after.doc in {st.doc, after.disk}
              && res in {Updated(after.disk.snapshot, false), Failed(Uncertain)}
  {
    hide Apply, Evict, ValidOperationId;
  }

  /** The store answers and nothing speaks against the write: all that is left is the audit line and the disk. */
  predicate GoesAhead(st: State, patch: Patch, expected: nat, operationId: string) {
    && !st.closed && !st.uncertain && ValidOperationId(operationId)
    && operationId !in st.doc.receipts && expected == st.doc.snapshot.revision
    && Apply(st.doc.snapshot, patch).Some?
  }

  /**
   A grant never exists without its audit line: a write reaches the disk exactly when the
   call is not cancelled, nothing speaks against it, its audit line was accepted and the
   disk did not refuse.  Without the line the whole store stays as it is.
   */
  lemma WritesIff(st: State, patch: Patch, expected: nat, operationId: string, env: Env)
    requires !st.uncertain ==> st.doc == st.disk
    ensures Update(st, patch, expected, operationId, env).0.disk != st.disk <==>
              !env.cancelled && GoesAhead(st, patch, expected, operationId) && env.auditAccepts && env.disk != Refused
    ensures !env.auditAccepts ==> Update(st, patch, expected, operationId, env).0 == st
    ensures Update(st, patch, expected, operationId, env).0 != st <==> Update(st, patch, expected, operationId, env).0.disk != st.disk
  {
    hide Apply, Evict, ValidOperationId;
  }

  /** Every answer of an update, with exactly the calls that get it. */
  lemma AnswersIff(st: State, patch: Patch, expected: nat, operationId: string, env: Env)
    ensures var res := Update(st, patch, expected, operationId, env).1;
            var answers := !env.cancelled && !st.closed && !st.uncertain;
            var known := operationId in st.doc.receipts;
            && (res == Failed(Cancelled) <==> env.cancelled)
            && (res == Failed(Unavailable) <==> !env.cancelled && st.closed)
            && (res == Failed(BadOperationId) <==> answers && !ValidOperationId(operationId))
            && (res == Failed(OperationMismatch) <==>
                  answers && ValidOperationId(operationId) && known && st.doc.receipts[operationId].body != patch)
            && (res == Updated(st.doc.snapshot, true) <==>
                  answers && ValidOperationId(operationId) && known && st.doc.receipts[operationId].body == patch)
            && (res == Failed(Conflict) <==>
                  answers && ValidOperationId(operationId) && !known && expected != st.doc.snapshot.revision)
            && (res == Failed(Invalid) <==>
                  && answers && ValidOperationId(operationId) && !known
                  && expected == st.doc.snapshot.revision && Apply(st.doc.snapshot, patch).None?)
  {
    hide Apply, Evict, ValidOperationId;
  }

  /** The answers to a write that goes ahead, by its audit line and the disk. */
  lemma OutcomesIff(st: State, patch: Patch, expected: nat, operationId: string, env: Env)
    ensures var res := Update(st, patch, expected, operationId, env).1;
            var ahead := !env.cancelled && GoesAhead(st, patch, expected, operationId);
            && (res == Failed(AuditFailed) <==> ahead && !env.auditAccepts)
            && (res == Failed(NotPersisted) <==> ahead && env.auditAccepts && env.disk == Refused)
            && (res == Failed(Uncertain) <==>
                  (!env.cancelled && !st.closed && st.uncertain) || (ahead && env.auditAccepts && env.disk == InDoubt))
            && (res.Updated? && !res.replayed <==> ahead && env.auditAccepts && env.disk == Durable)
  {
    hide Apply, Evict, ValidOperationId;
  }

  /** What every call keeps: receipts in order, and disk and memory apart only in doubt. */
  ghost predicate Consistent(st: State) {
    ReceiptsInOrder(st.doc) && ReceiptsInOrder(st.disk) && (!st.uncertain ==> st.doc == st.disk)
  }

  lemma UpdateKeepsConsistent(st: State, patch: Patch, expected: nat, operationId: string, env: Env)
    requires Consistent(st)
    ensures Consistent(Update(st, patch, expected, operationId, env).0)
  {
    hide Apply, Evict, Update, DistinctRevisions;
    UpdateShape(st, patch, expected, operationId, env);
    var after := Update(st, patch, expected, operationId, env).0;
    if after.disk != st.disk {
      WithReceipt(st.doc, operationId, Receipt(patch, expected + 1));
    }
  }

  /** The store as an object: the methods of the program, against the functions above. */
  class Store {
    var doc: Document
    var disk: Document
    var closed: bool
    var uncertain: bool

    function Now(): State
      reads this
    {
      StoreState(doc, disk, closed, uncertain)
    }

    /** Open on a missing file. */
    constructor ()
      ensures Now() == StoreState(EmptyDocument, EmptyDocument, false, false)
    {
      doc, disk, closed, uncertain := EmptyDocument, EmptyDocument, false, false;
    }

    method Read(cancelled: bool) returns (snap: Option<Snapshot>, error: Error)
      ensures snap.Some? <==> !cancelled && Usable(Now()).None?
      ensures snap.Some? ==> snap.value == doc.snapshot
      ensures snap.None? ==> error == if cancelled then Cancelled else Usable(Now()).value
    {
      snap, error := None, Cancelled;
      if cancelled {
        return;
      }
      if closed {
        error := Unavailable;
      } else if uncertain {
        error := Uncertain;
      } else {
        snap := Some(doc.snapshot);
      }
    }

    method OldestReceipt(receipts: map<string, Receipt>) returns (oldest: string)
      requires |receipts| > 0
      ensures oldest in receipts && IsOldest(receipts, oldest)
    {
      assert receipts.Keys != {};
      oldest :| oldest in receipts;
      var todo := receipts.Keys - {oldest};
      while todo != {}
        invariant todo <= receipts.Keys && oldest in receipts
        invariant forall id | id in receipts.Keys - todo :: receipts[oldest].revision <= receipts[id].revision
        decreases |todo|
      {
        var id :| id in todo;
        if receipts[id].revision < receipts[oldest].revision {
          oldest := id;
        }
        todo := todo - {id};
      }
    }

    /** The loop that drops receipts until the list fits. */
    method DropOldReceipts(receipts: map<string, Receipt>) returns (left: map<string, Receipt>)
      requires |receipts| <= MAX_RECEIPTS + 1 && DistinctRevisions(receipts)
      ensures left == Evict(receipts)
    {
      left := receipts;
      while |left| > MAX_RECEIPTS
        invariant |left| <= MAX_RECEIPTS + 1
        invariant left == if |left| > MAX_RECEIPTS then receipts else Evict(receipts)
        decreases |left|
      {
        var oldest := OldestReceipt(left);
        EvictIsOne(left, oldest);
        assert (left - {oldest}).Keys == left.Keys - {oldest};
        left := left - {oldest};
      }
    }

    method UpdateAudited(patch: Patch, expected: nat, operationId: string, env: Env) returns (res: Result)
      requires ReceiptsInOrder(doc)
      modifies this
      ensures (Now(), res) == Update(old(Now()), patch, expected, operationId, env)
      ensures ReceiptsInOrder(doc)
    {
      if env.cancelled {
        return Failed(Cancelled);
      }
      if closed {
        return Failed(Unavailable);
      }
      if uncertain {
        return Failed(Uncertain);
      }
      if !ValidOperationId(operationId) {
        return Failed(BadOperationId);
      }
      if operationId in doc.receipts {
        if doc.receipts[operationId].body != patch {
          return Failed(OperationMismatch);
        }
        return Updated(doc.snapshot, true);
      }
      if expected != doc.snapshot.revision {
        return Failed(Conflict);
      }
      var applied := Apply(doc.snapshot, patch);
      if applied.None? {
        return Failed(Invalid);
      }
      var next := applied.value.(revision := doc.snapshot.revision + 1);
      if !env.auditAccepts {
        return Failed(AuditFailed);
      }
      var r := Receipt(patch, next.revision);
      WithReceipt(doc, operationId, r);
      var receipts := DropOldReceipts(doc.receipts[operationId := r]);
      res := Publish(Document(next, receipts), env);
    }

    /** Persists the document, then publishes it; a write in doubt shuts the store. */
    method Publish(newDoc: Document, env: Env) returns (res: Result)
      modifies this
      ensures closed == old(closed)
      ensures match env.disk
              case Refused => doc == old(doc) && disk == old(disk) && uncertain == old(uncertain) && res == Failed(NotPersisted)
              case InDoubt => doc == old(doc) && disk == newDoc && uncertain && res == Failed(Uncertain)
              case Durable => doc == newDoc && disk == newDoc && uncertain == old(uncertain) && res == Updated(newDoc.snapshot, false)
    {
      if env.disk == Refused {
        return Failed(NotPersisted);
      }
      disk := newDoc;
      if env.disk == InDoubt {
        uncertain := true;
        return Failed(Uncertain);
      }
      doc := newDoc;
      res := Updated(newDoc.snapshot, false);
    }
  }
}
