/**
 A frontend's copy of the owner's library sources under interleaved refreshes.
 Each refresh reads the version it holds, asks the owner, and applies the answer in
 a later critical section; other refreshes and changes at the owner come between.
 */
module LibraryReplica {
  import opened Basics
  import opened GalleryReconcile

  /** The version identifies the switch and the sources without their names; the digest is taken to be exact. */
  datatype Version = Version(official: bool, rows: seq<Info>)

  datatype Listing = Listing(sources: seq<Info>, official: bool, version: Version, same: bool)

  datatype Owner = Owner(sources: seq<Info>, official: bool)

  function VersionOf(o: Owner): Version {
    Version(o.official, Rows(o.sources))
  }

  /** LocalAdmin.List: a caller that holds the current version gets no sources. */
  function Answer(o: Owner, known: Option<Version>): Listing {
    var v := VersionOf(o);
    if known == Some(v) then Listing([], o.official, v, true) else Listing(o.sources, o.official, v, false)
  }

  /** The configuration a frontend serves, and what the flags set it to. */
  datatype Lists = Lists(models: seq<Gallery>, backends: seq<Gallery>, official: bool)

  /** What a frontend keeps beside its lists. */
  datatype Snapshot = Snapshot(
    version: Option<Version>, loaded: bool, stale: bool,
    baseModels: seq<Gallery>, baseBackends: seq<Gallery>)

  /** An answer carries its number in the order the owner gave them. */
  datatype Pc =
    | Starting
    | Requesting(known: Option<Version>)
    | Answered(listing: Listing, number: nat)
    | Finishing(ok: bool)

  /** `asked` is the owner at each answer it gave; `recorded` is the number of the answer applied last. */
  datatype System = System(
    flags: Lists, lists: Lists, snap: Snapshot, owner: Owner,
    refreshes: map<nat, Pc>, asked: seq<Owner>, recorded: nat)

  function Init(flags: Lists, owner: Owner): System {
    System(flags, flags, Snapshot(None, false, false, [], []), owner, map[], [], 0)
  }

  /** The whole listing of an owner. */
  function Full(o: Owner): Listing {
    Answer(o, None)
  }

  datatype Step =
    | Begin(id: nat)
    | ReadKnown(id: nat, ownerReady: bool)
    | Ask(id: nat, ok: bool)
    | Apply(id: nat, readable: bool)
    | Finish(id: nat)
    | OwnerChanges(owner: Owner)

  ghost predicate Enabled(s: System, step: Step) {
    match step
    case Begin(id) => id !in s.refreshes
    case ReadKnown(id, _) => id in s.refreshes && s.refreshes[id].Starting?
    case Ask(id, _) => id in s.refreshes && s.refreshes[id].Requesting?
    case Apply(id, _) => id in s.refreshes && s.refreshes[id].Answered?
    case Finish(id) => id in s.refreshes && s.refreshes[id].Finishing?
    case OwnerChanges(_) => true
  }

  predicate Applies(snap: Snapshot, l: Listing) {
    !l.same && !(snap.loaded && snap.version == Some(l.version))
  }

  /** The snapshot after a listing was applied; the first one keeps the flags' lists as the base. */
  function Recorded(lists: Lists, snap: Snapshot, l: Listing): Snapshot {
    Snapshot(Some(l.version), true, snap.stale,
      if snap.loaded then snap.baseModels else lists.models,
      if snap.loaded then snap.baseBackends else lists.backends)
  }

  /** The lists after a listing was applied: rebuilt from the base lists. */
  function Rebuilt(lists: Lists, snap: Snapshot, l: Listing): Lists {
    var base := Recorded(lists, snap, l);
    Lists(Reconcile(l.sources, Model, base.baseModels), Reconcile(l.sources, Backend, base.baseBackends), l.official)
  }

  /** The critical section of fetchLibraries that takes the owner's answer. */
  function ApplyListing(s: System, l: Listing, number: nat): System {
    if Applies(s.snap, l) then
      s.(lists := Rebuilt(s.lists, s.snap, l), snap := Recorded(s.lists, s.snap, l), recorded := number)
    else s
  }

  /** The critical section of RefreshLibraries that marks the outcome. */
  function MarkOutcome(snap: Snapshot, ok: bool): Snapshot {
    if ok then snap.(stale := false) else if snap.loaded then snap.(stale := true) else snap
  }

  /** The frontend's object: its configuration lists and the snapshot fields, changed under the mutex. */
  class Frontend {
    var models: seq<Gallery>
    var backends: seq<Gallery>
    var official: bool
    var version: Option<Version>
    var loaded: bool
    var stale: bool
    var baseModels: seq<Gallery>
    var baseBackends: seq<Gallery>

    ghost function Served(): Lists
      reads this
    {
      Lists(models, backends, official)
    }

    ghost function Snap(): Snapshot
      reads this
    {
      Snapshot(version, loaded, stale, baseModels, baseBackends)
    }

    constructor (flags: Lists)
      ensures Served() == flags && Snap() == Snapshot(None, false, false, [], [])
    {
      models, backends, official := flags.models, flags.backends, flags.official;
      version, loaded, stale, baseModels, baseBackends := None, false, false, [], [];
    }

    /** Takes the answer of the owner; an unreadable answer is None. */
    method Take(answer: Option<Listing>) returns (ok: bool)
      modifies this
      ensures ok == answer.Some?
      ensures var changes := answer.Some? && Applies(old(Snap()), answer.value);
              && Served() == (if changes then Rebuilt(old(Served()), old(Snap()), answer.value) else old(Served()))
              && Snap() == (if changes then Recorded(old(Served()), old(Snap()), answer.value) else old(Snap()))
    {
      if answer.None? {
        return false;
      }
      var l := answer.value;
      if l.same || (loaded && version == Some(l.version)) {
        return true;
      }
      if !loaded {
        baseModels := models;
        baseBackends := backends;
      }
      official := l.official;
      models := ReconcileKind(l.sources, Model, baseModels);
      backends := ReconcileKind(l.sources, Backend, baseBackends);
      version, loaded := Some(l.version), true;
      return true;
    }

    method Mark(ok: bool)
      modifies this`stale
      ensures Snap() == MarkOutcome(old(Snap()), ok)
    {
      if !ok {
        if loaded {
          stale := true;
        }
        return;
      }
      stale := false;
    }
  }

  function Next(s: System, step: Step): System
    requires Enabled(s, step)
  {
    match step
    case Begin(id) => s.(refreshes := s.refreshes[id := Starting])
    case ReadKnown(id, ownerReady) =>
      s.(refreshes := s.refreshes[id := if ownerReady then Requesting(s.snap.version) else Finishing(false)])
    case Ask(id, ok) =>
      if ok then s.(refreshes := s.refreshes[id := Answered(Answer(s.owner, s.refreshes[id].known), |s.asked|)],
                    asked := s.asked + [s.owner])
      else s.(refreshes := s.refreshes[id := Finishing(false)])
    case Apply(id, readable) =>
      var pc := s.refreshes[id];
      if readable then ApplyListing(s, pc.listing, pc.number).(refreshes := s.refreshes[id := Finishing(true)])
      else s.(refreshes := s.refreshes[id := Finishing(false)])
    case Finish(id) => s.(snap := MarkOutcome(s.snap, s.refreshes[id].ok), refreshes := s.refreshes - {id})
    case OwnerChanges(owner) => s.(owner := owner)
  }

  /** The lists that a listing gives on top of the galleries the flags named. */
  function ListsOf(l: Listing, flags: Lists): Lists {
    Lists(Reconcile(l.sources, Model, flags.models), Reconcile(l.sources, Backend, flags.backends), l.official)
  }

  /** What is known of a refresh: its answer is the one the owner gave at that number. */
  ghost predicate PcInv(pc: Pc, asked: seq<Owner>, loaded: bool) {
    match pc
    case Requesting(known) => known.Some? ==> loaded
    case Answered(l, n) =>
      n < |asked| && l.version == VersionOf(asked[n]) && (if l.same then loaded else l == Full(asked[n]))
    case _ => true
  }

  ghost predicate Inv(s: System, flags: Lists) {
    && s.flags == flags
    && (s.snap.stale ==> s.snap.loaded)
    && (if s.snap.loaded then
          && s.snap.baseModels == flags.models && s.snap.baseBackends == flags.backends
          && s.recorded < |s.asked| && s.snap.version == Some(VersionOf(s.asked[s.recorded]))
          && s.lists == ListsOf(Full(s.asked[s.recorded]), flags)
        else s.snap.version == None && s.lists == flags)
    && forall id | id in s.refreshes :: PcInv(s.refreshes[id], s.asked, s.snap.loaded)
  }

  lemma StepKeeps(s: System, flags: Lists, step: Step)
    requires Inv(s, flags) && Enabled(s, step)
    ensures Inv(Next(s, step), flags)
  {
    hide Reconcile, VersionOf;
    var t := Next(s, step);
    forall id | id in t.refreshes ensures PcInv(t.refreshes[id], t.asked, t.snap.loaded) {
      assert id in s.refreshes ==> PcInv(s.refreshes[id], s.asked, s.snap.loaded);
    }
  }

  ghost predicate Trace(states: seq<System>, steps: seq<Step>, flags: Lists, owner: Owner) {
    && |states| == |steps| + 1 && states[0] == Init(flags, owner)
    && forall i | 0 <= i < |steps| :: Enabled(states[i], steps[i]) && states[i + 1] == Next(states[i], steps[i])
  }

  /**
   Under any interleaving: before the first answer the lists are the flags'; after
   it they are what the sources of the owner at one answer, whose version is held, give
   on top of the flags' galleries; and only loaded lists can be stale.
   */
  lemma {:induction false} ListsAreTheRecordedListing(states: seq<System>, steps: seq<Step>, flags: Lists, owner: Owner, i: nat)
    requires Trace(states, steps, flags, owner) && i < |states|
    ensures Inv(states[i], flags)
    ensures var s := states[i];
            if s.snap.loaded then
              && s.recorded < |s.asked| && s.snap.version == Some(VersionOf(s.asked[s.recorded]))
              && s.lists == ListsOf(Full(s.asked[s.recorded]), flags)
            else s.lists == flags && !s.snap.stale
  {
    hide Next, Enabled;
    if i > 0 {
      ListsAreTheRecordedListing(states, steps, flags, owner, i - 1);
      StepKeeps(states[i - 1], flags, steps[i - 1]);
    }
  }

  /** An owner answers without sources exactly when the caller holds the version of the sources it has now. */
  lemma AnswerIs(o: Owner, known: Option<Version>)
    ensures Answer(o, known).same <==> known == Some(Version(o.official, Rows(o.sources)))
    ensures Answer(o, known).sources == if Answer(o, known).same then [] else o.sources
    ensures Answer(o, known).version == Version(o.official, Rows(o.sources)) && Answer(o, known).official == o.official
  {
  }

  /**
   An answer is taken exactly when it brings sources of a version that is not held: then
   the lists are rebuilt from it, and it is the recorded one; else nothing changes, even
   if its sources have other names.
   */
  lemma TakenIff(s: System, flags: Lists, id: nat)
    requires Inv(s, flags) && Enabled(s, Apply(id, true))
    ensures var l, t := s.refreshes[id].listing, Next(s, Apply(id, true));
            && t.refreshes == s.refreshes[id := Finishing(true)] && t.owner == s.owner && t.snap.stale == s.snap.stale
            && (if l.same || (s.snap.loaded && s.snap.version == Some(l.version))
                then t.lists == s.lists && t.snap == s.snap && t.recorded == s.recorded
                else t.lists == ListsOf(l, flags) && t.snap.loaded && t.snap.version == Some(l.version)
                     && t.recorded == s.refreshes[id].number)
  {
    hide Reconcile, VersionOf;
  }

  /**
   A refresh succeeds exactly when a readable answer arrives, and fails exactly when the
   owner is not ready, does not answer, or answers something unreadable; its last step
   then marks the loaded lists as stale or clears the mark.
   */
  lemma EndsIff(s: System, step: Step, id: nat, ok: bool)
    requires Enabled(s, step)
    ensures var t := Next(s, step);
            (id in t.refreshes && t.refreshes[id] == Finishing(ok)) <==>
            || (id in s.refreshes && s.refreshes[id] == Finishing(ok) && step != Finish(id))
            || (ok && step == Apply(id, true))
            || (!ok && (step == ReadKnown(id, false) || step == Ask(id, false) || step == Apply(id, false)))
    ensures step == Finish(id) ==>
              && Next(s, step).refreshes == s.refreshes - {id} && Next(s, step).lists == s.lists
              && (Next(s, step).snap.stale <==> if s.refreshes[id].ok then false else s.snap.loaded || s.snap.stale)
  {
    hide ApplyListing, Answer;
    if step.Apply? && step.readable {
      AppliedRefreshes(s, s.refreshes[step.id].listing, s.refreshes[step.id].number);
    }
  }

  lemma AppliedRefreshes(s: System, l: Listing, number: nat)
    ensures ApplyListing(s, l, number).refreshes == s.refreshes
  {
  }

  // ---------- A refresh that fails ----------

  /** The step is one of refresh id. */
  predicate IsOf(step: Step, id: nat) {
    !step.OwnerChanges? && step.id == id
  }

  /** Nothing changes but the stale flag, and that only at the end and once loaded. */
  predicate OnlyMarks(s: System, step: Step, t: System) {
    && t.lists == s.lists && t.recorded == s.recorded && t.owner == s.owner
    && t.snap == s.snap.(stale := if step.Finish? && s.snap.loaded then true else s.snap.stale)
  }

  /**
   A refresh that ends in failure changed nothing at any of its steps but the stale flag,
   and that with its last step, once loaded; whatever other refreshes did in between.
   */
  lemma FailureOnlyMarks(states: seq<System>, steps: seq<Step>, flags: Lists, owner: Owner, i: nat, j: nat, id: nat)
    requires Trace(states, steps, flags, owner) && i <= j < |steps| && steps[j] == Finish(id)
    requires forall k | i <= k <= j :: id in states[k].refreshes
    requires states[j].refreshes[id] == Finishing(false)
    ensures forall k | i <= k <= j && IsOf(steps[k], id) :: OnlyMarks(states[k], steps[k], states[k + 1])
  {
    hide Next, Enabled;
    forall k | i <= k <= j && IsOf(steps[k], id) ensures OnlyMarks(states[k], steps[k], states[k + 1]) {
      assert Enabled(states[k], steps[k]) && states[k + 1] == Next(states[k], steps[k]);
      if k < j {
        EndsAs(states, steps, flags, owner, k + 1, j, id);
        if steps[k].Finish? {
          LastStepLeaves(states[k], steps[k], id);
        }
      }
      FailingStep(states[k], steps[k], id);
    }
  }

  lemma LastStepLeaves(s: System, step: Step, id: nat)
    requires Enabled(s, step) && step == Finish(id)
    ensures id !in Next(s, step).refreshes
  {
  }

  lemma FailingStep(s: System, step: Step, id: nat)
    requires Enabled(s, step) && IsOf(step, id) && id in s.refreshes
    requires step.Finish? ==> s.refreshes[id] == Finishing(false)
    requires !step.Finish? ==> id in Next(s, step).refreshes && Next(s, step).refreshes[id] != Finishing(true)
    ensures OnlyMarks(s, step, Next(s, step))
  {
  }

  /** A refresh that has its outcome keeps it until its last step. */
  lemma {:induction false} EndsAs(states: seq<System>, steps: seq<Step>, flags: Lists, owner: Owner, k: nat, j: nat, id: nat)
    requires Trace(states, steps, flags, owner) && k <= j < |states|
    requires forall m | k <= m <= j :: id in states[m].refreshes
    ensures states[k].refreshes[id].Finishing? ==> states[j].refreshes[id] == states[k].refreshes[id]
    decreases j
  {
    hide Next, Enabled;
    if k < j {
      EndsAs(states, steps, flags, owner, k, j - 1, id);
      if states[k].refreshes[id].Finishing? {
        assert Enabled(states[j - 1], steps[j - 1]) && states[j] == Next(states[j - 1], steps[j - 1]);
        OutcomeStays(states[j - 1], steps[j - 1], id);
      }
    }
  }

  lemma OutcomeStays(s: System, step: Step, id: nat)
    requires Enabled(s, step) && id in s.refreshes && s.refreshes[id].Finishing? && id in Next(s, step).refreshes
    ensures Next(s, step).refreshes[id] == s.refreshes[id]
  {
  }

  // ---------- A refresh that runs alone ----------

  /** The steps of one refresh that nothing interrupts and that the owner answers. */
  function Alone(s: System, id: nat): System
    requires id !in s.refreshes
  {
    var s1 := Next(s, Begin(id));
    var s2 := Next(s1, ReadKnown(id, true));
    var s3 := Next(s2, Ask(id, true));
    Next(Next(s3, Apply(id, true)), Finish(id))
  }

  function Anonymous(l: Lists): Lists {
    Lists(WithoutNames(l.models), WithoutNames(l.backends), l.official)
  }

  /** What the owner's sources give now. */
  function Current(s: System, flags: Lists): Lists {
    ListsOf(Full(s.owner), flags)
  }

  predicate Holds(s: System) {
    s.snap.version == Some(VersionOf(s.owner))
  }

  /** The held listing names the galleries it appends as the owner does now, for both kinds. */
  ghost predicate NamesHeld(s: System, flags: Lists)
    requires s.recorded < |s.asked|
  {
    && SameNames(s.asked[s.recorded].sources, s.owner.sources, Model, flags.models)
    && SameNames(s.asked[s.recorded].sources, s.owner.sources, Backend, flags.backends)
  }

  lemma AloneEnds(s: System, flags: Lists, id: nat)
    requires Inv(s, flags) && id !in s.refreshes
    ensures var t := Alone(s, id);
            && t.snap.loaded && !t.snap.stale && t.snap.version == Some(VersionOf(s.owner))
            && t.lists == (if Holds(s) then s.lists else Current(s, flags))
            && t.owner == s.owner && t.refreshes == s.refreshes && t.asked == s.asked + [s.owner]
            && t.recorded == (if Holds(s) then s.recorded else |s.asked|)
            && Inv(t, flags)
  {
    hide Reconcile, VersionOf;
    var t := Alone(s, id);
    forall k | k in t.refreshes ensures PcInv(t.refreshes[k], t.asked, t.snap.loaded) {
      assert PcInv(s.refreshes[k], s.asked, s.snap.loaded);
    }
  }

  /**
   A successful refresh running alone clears the stale flag and brings the lists in
   line with the owner's current sources: always up to names, and exactly if and only
   if the version was not held, or the held listing names its galleries as the owner does.
   */
  lemma AloneMatchesOwner(s: System, flags: Lists, id: nat)
    requires Inv(s, flags) && id !in s.refreshes
    ensures var t := Alone(s, id);
            && t.snap.loaded && !t.snap.stale && t.snap.version == Some(VersionOf(s.owner))
            && Anonymous(t.lists) == Anonymous(Current(s, flags))
            && (Holds(s) ==> s.recorded < |s.asked|)
            && (t.lists == Current(s, flags) <==> (Holds(s) ==> NamesHeld(s, flags)))
  {
    hide Reconcile, Rows, WithoutNames, Alone, SameNames;
    AloneEnds(s, flags, id);
    if Holds(s) {
      var held := s.asked[s.recorded].sources;
      SameRowsSameGalleries(held, s.owner.sources, Model, flags.models);
      SameRowsSameGalleries(held, s.owner.sources, Backend, flags.backends);
      SameGalleriesIffSameNames(held, s.owner.sources, Model, flags.models);
      SameGalleriesIffSameNames(held, s.owner.sources, Backend, flags.backends);
    }
  }

  function GalleriesOf(l: Lists, kind: Kind): seq<Gallery> {
    if kind == Model then l.models else l.backends
  }

  /** An address is among the galleries of a kind. */
  predicate Serves(l: Lists, kind: Kind, url: string) {
    exists k | 0 <= k < |GalleriesOf(l, kind)| :: GalleriesOf(l, kind)[k].url == url
  }

  /**
   What a list of sources makes a frontend serve, by the fields of the sources: an address
   that a source of the kind offers, switched on, neither removed nor suspended, in a
   readable format; or one that the flags name and no source of the kind has.
   */
  ghost predicate MadeToServe(sources: seq<Info>, flags: Lists, kind: Kind, url: string) {
    || (exists i | 0 <= i < |sources| ::
          && sources[i].kind == kind && sources[i].url == url
          && sources[i].enabled && !sources[i].removed && !sources[i].suspended
          && (kind == Model || sources[i].format == "gallery" || (kind == Backend && sources[i].isDefault)))
    || (Serves(flags, kind, url) && forall i | 0 <= i < |sources| :: sources[i].kind != kind || sources[i].url != url)
  }

  lemma ListsServe(o: Owner, flags: Lists, kind: Kind, url: string)
    requires kind != Addon
    ensures Serves(ListsOf(Full(o), flags), kind, url) <==> MadeToServe(o.sources, flags, kind, url)
    ensures ListsOf(Full(o), flags).official == o.official
  {
    hide Reconcile, VersionOf;
    ListedIff(o.sources, kind, GalleriesOf(flags, kind), url);
    assert kind != Model ==> kind == Backend;
    assert GalleriesOf(ListsOf(Full(o), flags), kind) == Reconcile(o.sources, kind, GalleriesOf(flags, kind));
  }

  lemma SameServed(a: Lists, b: Lists, kind: Kind, url: string)
    requires Anonymous(a) == Anonymous(b)
    ensures Serves(a, kind, url) <==> Serves(b, kind, url)
  {
    hide WithoutNames;
    SameUrls(GalleriesOf(a, kind), url);
    SameUrls(GalleriesOf(b, kind), url);
  }

  /**
   After a successful refresh that runs alone, held version or not, a frontend serves
   exactly the addresses that the owner's sources make it serve; an address all of whose
   sources are switched off, removed or suspended is gone, and the switch is the owner's.
   */
  lemma AloneServes(s: System, flags: Lists, id: nat, kind: Kind, url: string)
    requires Inv(s, flags) && id !in s.refreshes && kind != Addon
    ensures Serves(Alone(s, id).lists, kind, url) <==> MadeToServe(s.owner.sources, flags, kind, url)
    ensures var own := s.owner.sources;
            (exists i | 0 <= i < |own| :: own[i].kind == kind && own[i].url == url)
            && (forall i | 0 <= i < |own| && own[i].kind == kind && own[i].url == url ::
                  !own[i].enabled || own[i].removed || own[i].suspended)
            ==> !Serves(Alone(s, id).lists, kind, url)
    ensures Alone(s, id).lists.official == s.owner.official
  {
    hide Alone, Inv, WithoutNames, ListsOf, Full;
    AloneMatchesOwner(s, flags, id);
    ListsServe(s.owner, flags, kind, url);
    SameServed(Alone(s, id).lists, Current(s, flags), kind, url);
  }

  /** Under any interleaving a loaded frontend serves what the sources of one answer make it serve. */
  lemma TraceServes(states: seq<System>, steps: seq<Step>, flags: Lists, owner: Owner, i: nat, kind: Kind, url: string)
    requires Trace(states, steps, flags, owner) && i < |states| && states[i].snap.loaded && kind != Addon
    ensures var s := states[i];
            && s.recorded < |s.asked| && s.lists.official == s.asked[s.recorded].official
            && (Serves(s.lists, kind, url) <==> MadeToServe(s.asked[s.recorded].sources, flags, kind, url))
  {
    hide Trace, Inv, ListsOf, Full, Serves, MadeToServe;
    ListsAreTheRecordedListing(states, steps, flags, owner, i);
    ListsServe(states[i].asked[states[i].recorded], flags, kind, url);
  }

  /**
   The version covers no names: when the owner gave another name to the first source of a
   live address that the flags do not list, a refresh succeeds and keeps the old name.
   */
  lemma RenameIsMissed(s: System, flags: Lists, kind: Kind, url: string, id: nat)
    requires Inv(s, flags) && id !in s.refreshes && s.snap.loaded && Holds(s) && kind != Addon
    requires LiveFor(s.asked[s.recorded].sources, kind, url).Some?
    requires !HasUrl(if kind == Model then flags.models else flags.backends, url)
    requires var was, now := FirstReadable(s.asked[s.recorded].sources, kind, url), FirstReadable(s.owner.sources, kind, url);
             was.Some? && now.Some? && was.value.name != now.value.name
    ensures Alone(s, id).lists == s.lists != Current(s, flags) && !Alone(s, id).snap.stale
  {
    hide Reconcile, Rows, Alone, LiveFor, FirstReadable, HasUrl;
    AloneMatchesOwner(s, flags, id);
    AloneEnds(s, flags, id);
  }

  /** It happens to any live source: after one refresh its new name is missed by the next. */
  lemma RenameHappens(flags: Lists, kind: Kind, e: Info, name: string)
    requires IsLive(kind, e) && kind != Addon && name != e.name
    requires !HasUrl(if kind == Model then flags.models else flags.backends, e.url)
    ensures var s := Alone(Init(flags, Owner([e], true)), 1).(owner := Owner([e.(name := name)], true));
            && Inv(s, flags) && s.refreshes == map[]
            && Alone(s, 2).lists != Current(s, flags) && !Alone(s, 2).snap.stale
  {
    hide Reconcile, Alone, HasUrl, Inv, IsLive;
    var start, f := Init(flags, Owner([e], true)), e.(name := name);
    InitInv(flags, Owner([e], true));
    AloneEnds(start, flags, 1);
    var s := Alone(start, 1).(owner := Owner([f], true));
    OwnerIsFree(Alone(start, 1), flags, s.owner);
    assert Rows([e]) == Rows([f]);
    OnlySource(kind, e);
    OnlySource(kind, f);
    RenameIsMissed(s, flags, kind, e.url, 2);
  }

  lemma InitInv(flags: Lists, owner: Owner)
    ensures Inv(Init(flags, owner), flags)
  {
  }

  lemma OwnerIsFree(s: System, flags: Lists, owner: Owner)
    requires Inv(s, flags)
    ensures Inv(s.(owner := owner), flags)
  {
    hide Reconcile, VersionOf;
  }

  lemma OnlySource(kind: Kind, e: Info)
    ensures IsLive(kind, e) ==> LiveFor([e], kind, e.url) == Some(e) && FirstReadable([e], kind, e.url) == Some(e)
    ensures IsLive(kind, e) <==> IsLive(kind, e.(name := ""))
  {
    assert [e][..0] == [];
  }

  // ---------- Refreshes that overlap ----------

  /** Step q is the request that got answer n. */
  ghost predicate Gives(states: seq<System>, steps: seq<Step>, q: nat, n: nat) {
    q < |steps| && q < |states| && steps[q].Ask? && steps[q].ok && |states[q].asked| == n
  }

  lemma {:induction false} AnswersGrow(states: seq<System>, steps: seq<Step>, flags: Lists, owner: Owner, i: nat, j: nat)
    requires Trace(states, steps, flags, owner) && i <= j < |states|
    ensures states[i].asked <= states[j].asked
    ensures i < j && steps[i].Ask? && steps[i].ok ==> |states[i].asked| < |states[j].asked|
    decreases j
  {
    hide Reconcile, VersionOf, Rebuilt, Recorded;
    if i < j {
      AnswersGrow(states, steps, flags, owner, i, j - 1);
      assert Enabled(states[j - 1], steps[j - 1]) && states[j] == Next(states[j - 1], steps[j - 1]);
    }
  }

  /** Every answer was given at one step, by the owner of that moment. */
  lemma {:induction false} GivenAt(states: seq<System>, steps: seq<Step>, flags: Lists, owner: Owner, k: nat, n: nat) returns (q: nat)
    requires Trace(states, steps, flags, owner) && k < |states| && n < |states[k].asked|
    ensures q < k && Gives(states, steps, q, n) && states[q].owner == states[k].asked[n]
  {
    hide Reconcile, VersionOf, Rebuilt, Recorded;
    assert k > 0;
    assert Enabled(states[k - 1], steps[k - 1]) && states[k] == Next(states[k - 1], steps[k - 1]);
    if n < |states[k - 1].asked| {
      q := GivenAt(states, steps, flags, owner, k - 1, n);
    } else {
      q := k - 1;
    }
  }

  /** Answers are numbered in the order of the requests that got them. */
  lemma InOrderOfRequests(states: seq<System>, steps: seq<Step>, flags: Lists, owner: Owner, q: nat, n: nat, p: nat, m: nat)
    requires Trace(states, steps, flags, owner) && Gives(states, steps, q, n) && Gives(states, steps, p, m)
    ensures n < m <==> q < p
  {
    if q <= p {
      AnswersGrow(states, steps, flags, owner, q, p);
    } else {
      AnswersGrow(states, steps, flags, owner, p, q);
    }
  }

  /** Step q is the request of refresh id whose answer it still holds at k. */
  ghost predicate AskedFor(states: seq<System>, steps: seq<Step>, id: nat, q: nat, k: nat)
    requires k < |states|
  {
    && q < k && q < |steps| && steps[q] == Ask(id, true)
    && forall m | q < m <= k :: id in states[m].refreshes && states[m].refreshes[id].Answered?
  }

  lemma {:induction false} HeldAnswer(states: seq<System>, steps: seq<Step>, flags: Lists, owner: Owner, id: nat, k: nat) returns (q: nat)
    requires Trace(states, steps, flags, owner) && k < |states| && id in states[k].refreshes && states[k].refreshes[id].Answered?
    ensures AskedFor(states, steps, id, q, k) && Gives(states, steps, q, states[k].refreshes[id].number)
  {
    hide Reconcile, VersionOf, Rebuilt, Recorded;
    assert k > 0;
    assert Enabled(states[k - 1], steps[k - 1]) && states[k] == Next(states[k - 1], steps[k - 1]);
    if id in states[k - 1].refreshes && states[k - 1].refreshes[id].Answered? {
      q := HeldAnswer(states, steps, flags, owner, id, k - 1);
    } else {
      q := k - 1;
    }
  }

  /**
   A refresh takes the lists back in time if and only if it applies an answer that it asked
   for before the request that got the recorded answer: q and p are the two requests.
   */
  lemma GoesBackIff(states: seq<System>, steps: seq<Step>, flags: Lists, owner: Owner, k: nat) returns (q: nat, p: nat)
    requires Trace(states, steps, flags, owner) && k < |steps| && states[k].snap.loaded
    requires steps[k].Apply? && steps[k].readable
    ensures AskedFor(states, steps, steps[k].id, q, k)
    ensures Gives(states, steps, p, states[k].recorded) && p < k
    ensures states[k].lists == ListsOf(Full(states[p].owner), flags)
    ensures states[k + 1].recorded < states[k].recorded <==>
              steps[k].id in states[k].refreshes && states[k].refreshes[steps[k].id].Answered?
              && Applies(states[k].snap, states[k].refreshes[steps[k].id].listing) && q < p
  {
    hide Reconcile, VersionOf, Rebuilt, Recorded, Trace;
    StepAt(states, steps, flags, owner, k);
    ListsAreTheRecordedListing(states, steps, flags, owner, k);
    var s, id := states[k], steps[k].id;
    p := GivenAt(states, steps, flags, owner, k, s.recorded);
    q := HeldAnswer(states, steps, flags, owner, id, k);
    InOrderOfRequests(states, steps, flags, owner, q, s.refreshes[id].number, p, s.recorded);
  }

  lemma StepAt(states: seq<System>, steps: seq<Step>, flags: Lists, owner: Owner, k: nat)
    requires Trace(states, steps, flags, owner) && k < |steps|
    ensures |states| == |steps| + 1 && Enabled(states[k], steps[k]) && states[k + 1] == Next(states[k], steps[k])
  {
  }

  /** No other step moves the recorded answer. */
  lemma OnlyApplyMoves(states: seq<System>, steps: seq<Step>, flags: Lists, owner: Owner, k: nat)
    requires Trace(states, steps, flags, owner) && k < |steps| && !(steps[k].Apply? && steps[k].readable)
    ensures states[k + 1].recorded == states[k].recorded && states[k + 1].lists == states[k].lists
  {
    hide Reconcile, VersionOf, Rebuilt, Recorded;
    StepAt(states, steps, flags, owner, k);
  }

  /** Every answer in flight is newer than the recorded one. */
  ghost predicate NothingLate(s: System) {
    forall id | id in s.refreshes && s.refreshes[id].Answered? :: s.snap.loaded ==> s.recorded < s.refreshes[id].number
  }

  predicate AtMostOne(refreshes: map<nat, Pc>) {
    forall a, b | a in refreshes && b in refreshes :: a == b
  }

  lemma OneStepForward(s: System, flags: Lists, step: Step)
    requires Inv(s, flags) && Enabled(s, step) && NothingLate(s) && AtMostOne(s.refreshes)
    ensures var t := Next(s, step);
            NothingLate(t) && (s.snap.loaded ==> t.snap.loaded && s.recorded <= t.recorded)
  {
    hide Reconcile, VersionOf;
    var t := Next(s, step);
    forall id | id in t.refreshes && t.refreshes[id].Answered? ensures t.snap.loaded ==> t.recorded < t.refreshes[id].number {
      assert id in s.refreshes ==> PcInv(s.refreshes[id], s.asked, s.snap.loaded);
    }
  }

  /** While at most one refresh is in flight, from a moment with none, the recorded answer never goes back. */
  lemma {:induction false} OneAtATimeNeverGoesBack(states: seq<System>, steps: seq<Step>, flags: Lists, owner: Owner, i: nat, j: nat)
    requires Trace(states, steps, flags, owner) && i <= j < |states| && states[i].refreshes == map[]
    requires forall k | i <= k <= j :: AtMostOne(states[k].refreshes)
    ensures NothingLate(states[j])
    ensures states[i].snap.loaded ==> states[j].snap.loaded && states[i].recorded <= states[j].recorded
    decreases j
  {
    hide Next, Enabled, AtMostOne;
    if i < j {
      OneAtATimeNeverGoesBack(states, steps, flags, owner, i, j - 1);
      ListsAreTheRecordedListing(states, steps, flags, owner, j - 1);
      OneStepForward(states[j - 1], flags, steps[j - 1]);
    }
  }

  lemma Extend(states: seq<System>, steps: seq<Step>, flags: Lists, owner: Owner, step: Step)
    requires Trace(states, steps, flags, owner) && Enabled(states[|steps|], step)
    ensures Trace(states + [Next(states[|steps|], step)], steps + [step], flags, owner)
  {
    hide Next, Enabled;
  }

  /** A refresh starts, reads the version and is answered. */
  lemma GetsAnswer(before: seq<System>, done: seq<Step>, flags: Lists, owner: Owner, id: nat)
    returns (states: seq<System>, steps: seq<Step>)
    requires Trace(before, done, flags, owner) && id !in before[|done|].refreshes
    ensures Trace(states, steps, flags, owner)
    ensures var s := before[|done|];
            states[|steps|] == s.(refreshes := s.refreshes[id := Answered(Answer(s.owner, s.snap.version), |s.asked|)],
                                  asked := s.asked + [s.owner])
  {
    hide Reconcile, VersionOf, Trace;
    var s := LastOf(before, done, flags, owner);
    var s1 := Next(s, Begin(id));
    var s2 := Next(s1, ReadKnown(id, true));
    Extend(before, done, flags, owner, Begin(id));
    Extend(before + [s1], done + [Begin(id)], flags, owner, ReadKnown(id, true));
    Extend(before + [s1] + [s2], done + [Begin(id)] + [ReadKnown(id, true)], flags, owner, Ask(id, true));
    states := before + [s1] + [s2] + [Next(s2, Ask(id, true))];
    steps := done + [Begin(id)] + [ReadKnown(id, true)] + [Ask(id, true)];
  }

  lemma LastOf(states: seq<System>, steps: seq<Step>, flags: Lists, owner: Owner) returns (s: System)
    requires Trace(states, steps, flags, owner)
    ensures |states| == |steps| + 1 && s == states[|steps|]
  {
    s := states[|steps|];
  }

  /** Refresh 1 is answered, the owner changes, and refresh 2 is answered. */
  lemma Overlap(flags: Lists, before: Owner, after: Owner) returns (states: seq<System>, steps: seq<Step>)
    ensures Trace(states, steps, flags, before)
    ensures states[|steps|] == Init(flags, before).(
              owner := after, asked := [before, after],
              refreshes := map[1 := Answered(Full(before), 0), 2 := Answered(Full(after), 1)])
  {
    hide Reconcile, VersionOf, Trace;
    StartsTrace(flags, before);
    states, steps := GetsAnswer([Init(flags, before)], [], flags, before, 1);
    var s := LastOf(states, steps, flags, before);
    Extend(states, steps, flags, before, OwnerChanges(after));
    states, steps := GetsAnswer(states + [s.(owner := after)], steps + [OwnerChanges(after)], flags, before, 2);
  }

  lemma StartsTrace(flags: Lists, owner: Owner)
    ensures Trace([Init(flags, owner)], [], flags, owner)
  {
  }

  /**
   Not stale does not mean current. For any change at the owner that its version shows
   there is a run of two overlapping refreshes, both successful, in which the frontend
   has the new sources and then the old ones again, with nothing in flight and no flag.
   */
  lemma LateAnswerGoesBack(flags: Lists, before: Owner, after: Owner)
    returns (states: seq<System>, steps: seq<Step>, k: nat)
    requires VersionOf(before) != VersionOf(after)
    ensures Trace(states, steps, flags, before) && k < |states|
    ensures states[k].lists == ListsOf(Full(after), flags) && states[k].owner == after
    ensures var t := states[|steps|];
            && t.owner == after && t.refreshes == map[] && t.snap.loaded && !t.snap.stale
            && t.lists == ListsOf(Full(before), flags) && t.snap.version == Some(VersionOf(before))
  {
    hide Reconcile, VersionOf;
    states, steps := Overlap(flags, before, after);
    Extend(states, steps, flags, before, Apply(2, true));
    states, steps := states + [Next(states[|steps|], Apply(2, true))], steps + [Apply(2, true)];
    k := |steps|;
    Extend(states, steps, flags, before, Finish(2));
    states, steps := states + [Next(states[|steps|], Finish(2))], steps + [Finish(2)];
    assert states[|steps|].refreshes == map[1 := Answered(Full(before), 0)];
    Extend(states, steps, flags, before, Apply(1, true));
    states, steps := states + [Next(states[|steps|], Apply(1, true))], steps + [Apply(1, true)];
    Extend(states, steps, flags, before, Finish(1));
    states, steps := states + [Next(states[|steps|], Finish(1))], steps + [Finish(1)];
  }
}
