/**
 The shared model list of a peer-to-peer group. Every node compares its models with
 the list on the ledger, announces what the list misses and asks for what it misses.
 */
module ModelLedger {
  import opened Basics

  /** The value under the shared key: never written, not a list of names, or the names. */
  datatype Shared = Absent | Unreadable | Models(names: seq<string>)

  function Names(l: Shared): seq<string> {
    if l.Models? then l.names else []
  }

  function SetOf(s: seq<string>): set<string> {
    set x | x in s
  }

  /** The names of `have` that the list does not hold, in their order. */
  function NotThere(models: seq<string>, have: seq<string>): seq<string> {
    if have == [] then []
    else
      var last := have[|have| - 1];
      NotThere(models, have[..|have| - 1]) + if last in models then [] else [last]
  }

  /** The listed names the node lacks, except where no operation ID could be made. */
  function Wanted(models: seq<string>, have: seq<string>, noId: set<nat>): seq<string> {
    if models == [] then []
    else
      var k := |models| - 1;
      Wanted(models[..k], have, noId) + if models[k] in have || k in noId then [] else [models[k]]
  }

  function Announced(l: Shared, have: seq<string>): Shared {
    match l
    case Absent => Models(have)
    case Unreadable => Unreadable
    case Models(names) => Models(names + NotThere(names, have))
  }

  /** The announcement of a node that read `read`, over whatever the list is by then. */
  function AnnouncedOver(current: Shared, read: Shared, have: seq<string>): Shared {
    if read.Models? && NotThere(read.names, have) == [] then current
    else if read.Unreadable? then current
    else Announced(read, have)
  }

  function Installs(l: Shared, have: seq<string>, noId: set<nat>): seq<string> {
    if l.Models? then Wanted(l.names, have, noId) else []
  }

  class Ledger {
    var models: Shared

    constructor (models: Shared)
      ensures this.models == models
    {
      this.models := models;
    }
  }

  /**
   One synchronisation. A node that finds no list announces its own and then stops,
   because the data it read is no list; the others announce before they install.
   */
  method SyncState(ledger: Ledger, have: seq<string>, noId: set<nat>) returns (installs: seq<string>)
    modifies ledger
    ensures ledger.models == Announced(old(ledger.models), have)
    ensures installs == Installs(old(ledger.models), have, noId)
  {
    installs := [];
    var data := ledger.models;
    if data == Absent {
      ledger.models := Models(have);
    }
    if !data.Models? {
      return;
    }
    var models := data.names;
    var whatIsNotThere := [];
    var i := 0;
    while i < |have|
      invariant i <= |have| && whatIsNotThere == NotThere(models, have[..i])
    {
      assert have[..i + 1][..i] == have[..i];
      if have[i] !in models {
        whatIsNotThere := whatIsNotThere + [have[i]];
      }
      i := i + 1;
    }
    assert have[..i] == have;
    if |whatIsNotThere| > 0 {
      ledger.models := Models(models + whatIsNotThere);
    } else {
      assert models + whatIsNotThere == models;
    }
    i := 0;
    while i < |models|
      invariant i <= |models| && installs == Wanted(models[..i], have, noId)
    {
      assert models[..i + 1][..i] == models[..i];
      if models[i] !in have && i !in noId {
        installs := installs + [models[i]];
      }
      i := i + 1;
    }
    assert models[..i] == models;
  }

  // ---------- What one synchronisation does to the sets of names ----------

  lemma SetOfAppend(a: seq<string>, b: seq<string>)
    ensures SetOf(a + b) == SetOf(a) + SetOf(b)
  {
  }

  lemma {:induction false} NotThereIsTheRest(models: seq<string>, have: seq<string>)
    ensures SetOf(NotThere(models, have)) == SetOf(have) - SetOf(models)
  {
    if have != [] {
      var front, last := have[..|have| - 1], have[|have| - 1];
      NotThereIsTheRest(models, front);
      assert have == front + [last];
      SetOfAppend(front, [last]);
      SetOfAppend(NotThere(models, front), if last in models then [] else [last]);
    }
  }

  lemma {:induction false} WantedIsMissing(models: seq<string>, have: seq<string>, noId: set<nat>)
    ensures SetOf(Wanted(models, have, noId)) <= SetOf(models) - SetOf(have)
    ensures noId == {} ==> SetOf(Wanted(models, have, noId)) == SetOf(models) - SetOf(have)
  {
    if models != [] {
      var k := |models| - 1;
      WantedIsMissing(models[..k], have, noId);
      assert models == models[..k] + [models[k]];
      SetOfAppend(models[..k], [models[k]]);
      SetOfAppend(Wanted(models[..k], have, noId), if models[k] in have || k in noId then [] else [models[k]]);
    }
  }

  /** The new list begins with the old one and holds exactly the two lists' names. */
  lemma AnnouncedNames(l: Shared, have: seq<string>)
    requires !l.Unreadable?
    ensures Announced(l, have).Models? && Names(l) <= Names(Announced(l, have))
    ensures SetOf(Names(Announced(l, have))) == SetOf(Names(l)) + SetOf(have)
  {
    NotThereIsTheRest(Names(l), have);
    if l.Models? {
      SetOfAppend(l.names, NotThere(l.names, have));
    }
  }

  /** Read and announced in one step, nothing else can come between. */
  lemma AnnouncedAtOnce(l: Shared, have: seq<string>)
    ensures AnnouncedOver(l, l, have) == Announced(l, have)
  {
    if l.Models? && NotThere(l.names, have) == [] {
      assert l.names + [] == l.names;
    }
  }

  /** A late announcement puts on the list what the node read and has, or leaves the list alone. */
  lemma AnnouncedOverNames(current: Shared, read: Shared, have: seq<string>)
    requires !current.Unreadable? && !read.Unreadable?
    ensures var after := AnnouncedOver(current, read, have);
            && !after.Unreadable?
            && (after == current || SetOf(Names(after)) == SetOf(Names(read)) + SetOf(have))
  {
    AnnouncedNames(read, have);
  }

  /**
   A late announcement leaves every name on the list if and only if there was nothing
   to announce, or what the node read and has covers the list as it is by now.
   */
  lemma AnnouncementKeepsList(current: Shared, read: Shared, have: seq<string>)
    requires !current.Unreadable? && !read.Unreadable?
    ensures SetOf(Names(current)) <= SetOf(Names(AnnouncedOver(current, read, have)))
            <==> (read.Models? && NotThere(read.names, have) == []) || SetOf(Names(current)) <= SetOf(Names(read)) + SetOf(have)
  {
    AnnouncedNames(read, have);
  }

  // ---------- Runs of a group ----------

  /** A node's models, the installs it asked for that have not finished, and the list it read but did not answer yet. */
  datatype Node = Node(have: seq<string>, pending: seq<string>, read: Option<Shared>)

  datatype Group = Group(ledger: Shared, nodes: seq<Node>)

  /** `Sync` is a whole synchronisation; `Read` and `Announce` are its halves, with others in between. */
  datatype Step = Sync(i: nat, noId: set<nat>) | Read(i: nat) | Announce(i: nat, noId: set<nat>) | Finish(i: nat)

  /** A node synchronises again only when its installs have finished; each takes any time until then. */
  ghost predicate Enabled(g: Group, step: Step) {
    && step.i < |g.nodes|
    && var n := g.nodes[step.i];
       match step
       case Announce(_, _) => n.read.Some?
       case Finish(_) => n.pending != []
       case _ => n.pending == [] && n.read.None?
  }

  function Next(g: Group, step: Step): Group
    requires Enabled(g, step)
  {
    var n := g.nodes[step.i];
    match step
    case Sync(i, noId) =>
      Group(AnnouncedOver(g.ledger, g.ledger, n.have), g.nodes[i := n.(pending := Installs(g.ledger, n.have, noId))])
    case Read(i) => g.(nodes := g.nodes[i := n.(read := Some(g.ledger))])
    case Announce(i, noId) =>
      Group(AnnouncedOver(g.ledger, n.read.value, n.have),
            g.nodes[i := n.(pending := Installs(n.read.value, n.have, noId), read := None)])
    case Finish(i) =>
      g.(nodes := g.nodes[i := n.(have := n.have + [n.pending[0]], pending := n.pending[1..])])
  }

  ghost predicate Run(states: seq<Group>, steps: seq<Step>) {
    && |states| == |steps| + 1
    && forall k | 0 <= k < |steps| :: Enabled(states[k], steps[k]) && states[k + 1] == Next(states[k], steps[k])
  }

  function Reach(n: Node): set<string> {
    SetOf(n.have) + SetOf(n.pending)
  }

  /** All names on the ledger or on a node. */
  function Union(g: Group): set<string> {
    SetOf(Names(g.ledger)) + set i, x | 0 <= i < |g.nodes| && x in g.nodes[i].have :: x
  }

  /** A name is asked for exactly when the node lacks it and an operation ID could be made at some place where it is listed. */
  lemma {:induction false} WantedIff(models: seq<string>, have: seq<string>, noId: set<nat>, name: string)
    ensures name in Wanted(models, have, noId) <==>
            name !in have && exists k | 0 <= k < |models| :: models[k] == name && k !in noId
  {
    if models != [] {
      var n := |models| - 1;
      WantedIff(models[..n], have, noId, name);
      if k :| 0 <= k < |models| && models[k] == name && k !in noId {
        assert k < n ==> models[..n][k] == name;
      }
    }
  }

  /** Data that is no list is never announced over, and nothing is installed from it. */
  lemma UnreadableStays(current: Shared, have: seq<string>, noId: set<nat>)
    ensures AnnouncedOver(current, Unreadable, have) == current
    ensures AnnouncedOver(Unreadable, Unreadable, have) == Unreadable && Installs(Unreadable, have, noId) == []
    ensures AnnouncedOver(Absent, Absent, have) == Models(have) && Installs(Absent, have, noId) == []
  {
  }

  /** The names that a synchronisation asks for, if every operation ID can be made: those it read and lacks. */
  function Missing(l: Shared, have: seq<string>): set<string> {
    SetOf(Names(l)) - SetOf(have)
  }

  /**
   What a step does to its node: a synchronisation starts only at rest and asks for what
   the list it read has and the node lacks; an install that finishes adds its name; and
   no step touches another node.
   */
  lemma NodeSteps(g: Group, step: Step)
    requires Enabled(g, step)
    ensures var n, m := g.nodes[step.i], Next(g, step).nodes[step.i];
            && |Next(g, step).nodes| == |g.nodes|
            && (forall j | 0 <= j < |g.nodes| && j != step.i :: Next(g, step).nodes[j] == g.nodes[j])
            && (step.Sync? ==>
                  && n.pending == [] && n.read.None? && m.have == n.have && m.read.None?
                  && SetOf(m.pending) <= Missing(g.ledger, n.have) && (step.noId == {} ==> SetOf(m.pending) == Missing(g.ledger, n.have)))
            && (step.Read? ==>
                  n.pending == [] && n.read.None? && m == n.(read := Some(g.ledger)) && Next(g, step).ledger == g.ledger)
            && (step.Announce? ==>
                  && n.read.Some? && m.have == n.have && m.read.None?
                  && SetOf(m.pending) <= Missing(n.read.value, n.have)
                  && (step.noId == {} ==> SetOf(m.pending) == Missing(n.read.value, n.have)))
            && (step.Finish? ==>
                  && n.pending != [] && m.have == n.have + [n.pending[0]] && m.pending == n.pending[1..] && m.read == n.read
                  && Next(g, step).ledger == g.ledger)
  {
    var n := g.nodes[step.i];
    if step.Sync? {
      InstallsMissing(g.ledger, n.have, step.noId);
    } else if step.Announce? {
      InstallsMissing(n.read.value, n.have, step.noId);
    }
    hide Installs, AnnouncedOver, Missing, SetOf;
  }

  lemma InstallsMissing(l: Shared, have: seq<string>, noId: set<nat>)
    ensures SetOf(Installs(l, have, noId)) <= Missing(l, have)
    ensures noId == {} ==> SetOf(Installs(l, have, noId)) == Missing(l, have)
  {
    WantedIsMissing(Names(l), have, noId);
    hide Wanted;
  }

  /** A group to start from: the list can be read, nobody is in the middle of a synchronisation. */
  ghost predicate Start(g: Group) {
    && !g.ledger.Unreadable?
    && forall i | 0 <= i < |g.nodes| :: g.nodes[i].read.None? && g.nodes[i].pending == []
  }

  /** What is known of a node: it keeps what it began with, and all it has, wants or read is the group's. */
  ghost predicate NodeInv(n: Node, first: seq<string>, base: set<string>, all: set<string>) {
    && SetOf(first) <= SetOf(n.have) <= all && SetOf(n.pending) <= all
    && (n.read.Some? ==> !n.read.value.Unreadable? && base <= SetOf(Names(n.read.value)) <= all)
  }

  /** The list keeps what it began with, in whatever order announcements land. */
  ghost predicate Inv(g: Group, start: Group) {
    && |g.nodes| == |start.nodes| && !g.ledger.Unreadable?
    && SetOf(Names(start.ledger)) <= SetOf(Names(g.ledger)) <= Union(start)
    && forall i | 0 <= i < |g.nodes| ::
         NodeInv(g.nodes[i], start.nodes[i].have, SetOf(Names(start.ledger)), Union(start))
  }

  lemma StartInv(g: Group)
    requires Start(g)
    ensures Inv(g, g)
  {
    forall i | 0 <= i < |g.nodes| ensures SetOf(g.nodes[i].have) <= Union(g) {
    }
  }

  lemma ReachOfFinish(n: Node)
    requires n.pending != []
    ensures var m := n.(have := n.have + [n.pending[0]], pending := n.pending[1..]);
            && Reach(m) == Reach(n) && SetOf(m.pending) <= SetOf(n.pending)
            && SetOf(m.have) == SetOf(n.have) + {n.pending[0]} && n.pending[0] in SetOf(n.pending)
  {
    var p := n.pending;
    assert p == [p[0]] + p[1..];
    SetOfAppend([p[0]], p[1..]);
    SetOfAppend(n.have, [p[0]]);
  }

  lemma InstallsAreListed(l: Shared, have: seq<string>, noId: set<nat>)
    ensures SetOf(Installs(l, have, noId)) <= SetOf(Names(l))
    ensures l.Models? && noId == {} ==> SetOf(Names(l)) <= SetOf(have) + SetOf(Installs(l, have, noId))
  {
    if l.Models? {
      WantedIsMissing(l.names, have, noId);
    }
  }

  /** Every step, whole or half, keeps the invariant. */
  lemma StepKeeps(g: Group, start: Group, step: Step)
    requires Inv(g, start) && Enabled(g, step)
    ensures Inv(Next(g, step), start)
  {
    hide AnnouncedOver, Installs, Union, SetOf, Names;
    var i, n := step.i, g.nodes[step.i];
    var base, all := SetOf(Names(start.ledger)), Union(start);
    assert NodeInv(n, start.nodes[i].have, base, all);
    match step
    case Sync(_, noId) =>
      AnnouncedOverNames(g.ledger, g.ledger, n.have);
      InstallsAreListed(g.ledger, n.have, noId);
    case Read(_) =>
    case Announce(_, noId) =>
      AnnouncedOverNames(g.ledger, n.read.value, n.have);
      InstallsAreListed(n.read.value, n.have, noId);
    case Finish(_) => ReachOfFinish(n);
  }

  lemma {:induction false} RunKeeps(states: seq<Group>, steps: seq<Step>, k: nat)
    requires Run(states, steps) && Start(states[0]) && k < |states|
    ensures Inv(states[k], states[0])
  {
    hide Inv, Next, Enabled;
    if k == 0 {
      StartInv(states[0]);
    } else {
      RunKeeps(states, steps, k - 1);
      StepKeeps(states[k - 1], states[0], steps[k - 1]);
    }
  }

  /**
   In every run, also when reads and announcements of different nodes interleave and
   announcements overwrite each other, no name is invented and none is lost: the
   names on the list and on the nodes together stay the same.
   */
  lemma NothingIsLost(states: seq<Group>, steps: seq<Step>, k: nat)
    requires Run(states, steps) && Start(states[0]) && k < |states|
    ensures Union(states[k]) == Union(states[0])
    ensures SetOf(Names(states[0].ledger)) <= SetOf(Names(states[k].ledger))
  {
    hide Run, Start, SetOf, Names;
    RunKeeps(states, steps, k);
    SameUnion(states[k], states[0]);
  }

  lemma SameUnion(g: Group, start: Group)
    requires Inv(g, start)
    ensures Union(g) == Union(start)
  {
    forall x ensures x in Union(g) <==> x in Union(start) {
      if x in Union(g) && x !in SetOf(Names(g.ledger)) {
        var i :| 0 <= i < |g.nodes| && x in g.nodes[i].have;
        assert NodeInv(g.nodes[i], start.nodes[i].have, SetOf(Names(start.ledger)), Union(start));
        assert x in SetOf(g.nodes[i].have);
      }
      if x in Union(start) && x !in SetOf(Names(start.ledger)) {
        var i :| 0 <= i < |start.nodes| && x in start.nodes[i].have;
        assert NodeInv(g.nodes[i], start.nodes[i].have, SetOf(Names(start.ledger)), Union(start));
        assert x in SetOf(start.nodes[i].have) && x in SetOf(g.nodes[i].have);
      }
    }
  }

  /** The names that the announcement of node i would take off the list. */
  function Dropped(g: Group, i: nat): set<string>
    requires i < |g.nodes| && g.nodes[i].read.Some?
  {
    var n := g.nodes[i];
    if n.read.value.Models? && NotThere(n.read.value.names, n.have) == [] then {}
    else SetOf(Names(g.ledger)) - SetOf(Names(n.read.value)) - SetOf(n.have)
  }

  /**
   Names leave the list at one kind of step only, the announcement of a node that read
   the list before others extended it, and then exactly those that it neither read nor
   has. Each of them is still on a node.
   */
  lemma OnlyLateAnnouncementsDrop(states: seq<Group>, steps: seq<Step>, k: nat)
    requires Run(states, steps) && Start(states[0]) && k < |steps|
    ensures SetOf(Names(states[k].ledger)) - SetOf(Names(states[k + 1].ledger))
            == if steps[k].Announce? then Dropped(states[k], steps[k].i) else {}
    ensures SetOf(Names(states[k].ledger)) - SetOf(Names(states[k + 1].ledger))
            <= Union(states[k + 1]) - SetOf(Names(states[k + 1].ledger))
  {
    hide AnnouncedOver, Installs, Union, SetOf, Names, NotThere, Start;
    var g, h, step := states[k], states[k + 1], steps[k];
    NothingIsLost(states, steps, k);
    NothingIsLost(states, steps, k + 1);
    RunKeeps(states, steps, k);
    var n := g.nodes[step.i];
    assert NodeInv(n, states[0].nodes[step.i].have, SetOf(Names(states[0].ledger)), Union(states[0]));
    ListInUnion(g);
    if step.Announce? {
      AnnouncedOverCases(g.ledger, n.read.value, n.have);
    } else if step.Sync? {
      AnnouncedAtOnce(g.ledger, n.have);
      AnnouncedNames(g.ledger, n.have);
    }
  }

  lemma ListInUnion(g: Group)
    ensures SetOf(Names(g.ledger)) <= Union(g)
  {
  }

  lemma AnnouncedOverCases(current: Shared, read: Shared, have: seq<string>)
    requires !read.Unreadable?
    ensures var after := AnnouncedOver(current, read, have);
            if read.Models? && NotThere(read.names, have) == [] then after == current
            else SetOf(Names(after)) == SetOf(Names(read)) + SetOf(have)
  {
    AnnouncedNames(read, have);
  }

  /** The run in which two nodes read an empty list and announce one after the other. */
  function RacingRun(a: string, b: string): seq<Group> {
    var x, y := Node([a], [], None), Node([b], [], None);
    var seen := Some(Models([]));
    [Group(Models([]), [x, y]),
     Group(Models([]), [x.(read := seen), y]),
     Group(Models([]), [x.(read := seen), y.(read := seen)]),
     Group(Models([a]), [x, y.(read := seen)]),
     Group(Models([b]), [x, y])]
  }

  const RACING_STEPS := [Read(0), Read(1), Announce(0, {}), Announce(1, {})]

  /** Such a race happens: the first node's name is on the list and then is not. */
  lemma RaceDrops(a: string, b: string)
    requires a != b
    ensures var states := RacingRun(a, b);
            && Run(states, RACING_STEPS) && Start(states[0])
            && SetOf(Names(states[3].ledger)) == {a} && SetOf(Names(states[4].ledger)) == {b}
  {
    var states := RacingRun(a, b);
    NotThereOfOne(a);
    NotThereOfOne(b);
    forall k | 0 <= k < 4 ensures Enabled(states[k], RACING_STEPS[k]) && states[k + 1] == Next(states[k], RACING_STEPS[k]) {
      RaceStep(a, b, k);
    }
  }

  lemma RaceStep(a: string, b: string, k: nat)
    requires k < 4
    ensures var states := RacingRun(a, b);
            Enabled(states[k], RACING_STEPS[k]) && states[k + 1] == Next(states[k], RACING_STEPS[k])
  {
    NotThereOfOne(a);
    NotThereOfOne(b);
    var states := RacingRun(a, b);
    assert [] + [a] == [a] && [] + [b] == [b];
    assert states[k + 1].nodes == Next(states[k], RACING_STEPS[k]).nodes;
  }

  lemma NotThereOfOne(a: string)
    ensures NotThere([], [a]) == [a] && Wanted([], [a], {}) == []
  {
    assert [a][..0] == [];
  }

  // ---------- Whole synchronisations converge ----------

  /** From here on every node synchronises in one step. */
  ghost predicate Whole(steps: seq<Step>, from: nat) {
    forall k | from <= k < |steps| :: steps[k].Sync? || steps[k].Finish?
  }

  /** The list only grows at its end, and a node never loses a name it has or asked for. */
  lemma StepGrows(g: Group, step: Step)
    requires !g.ledger.Unreadable? && Enabled(g, step) && (step.Sync? || step.Finish?)
    ensures var h := Next(g, step);
            && |h.nodes| == |g.nodes| && Names(g.ledger) <= Names(h.ledger) && (g.ledger.Models? ==> h.ledger.Models?)
            && forall i | 0 <= i < |g.nodes| :: Grows(g.nodes[i], h.nodes[i])
  {
    hide Announced, Installs, AnnouncedOver;
    var me := g.nodes[step.i];
    if step.Sync? {
      AnnouncedAtOnce(g.ledger, me.have);
      AnnouncedNames(g.ledger, me.have);
    } else {
      ReachOfFinish(me);
    }
  }

  ghost predicate Grows(a: Node, b: Node) {
    SetOf(a.have) <= SetOf(b.have) && Reach(a) <= Reach(b)
  }

  lemma GrowsOn(a: Node, b: Node, c: Node)
    ensures Grows(a, a) && (Grows(a, b) && Grows(b, c) ==> Grows(a, c))
  {
  }

  lemma {:induction false} RunGrows(states: seq<Group>, steps: seq<Step>, from: nat, j: nat, k: nat)
    requires Run(states, steps) && Start(states[0]) && Whole(steps, from) && from <= j <= k < |states|
    ensures |states[j].nodes| == |states[k].nodes| == |states[0].nodes| && !states[j].ledger.Unreadable?
    ensures Names(states[j].ledger) <= Names(states[k].ledger)
    ensures states[j].ledger.Models? ==> states[k].ledger.Models?
    ensures forall i | 0 <= i < |states[0].nodes| :: Grows(states[j].nodes[i], states[k].nodes[i])
    decreases k
  {
    hide Next, Union, Names, Enabled, NodeInv, SetOf, Grows, Start;
    RunKeeps(states, steps, j);
    RunKeeps(states, steps, k);
    if j == k {
      forall i | 0 <= i < |states[0].nodes| ensures Grows(states[j].nodes[i], states[k].nodes[i]) {
        GrowsOn(states[j].nodes[i], states[j].nodes[i], states[k].nodes[i]);
      }
    } else {
      RunKeeps(states, steps, k - 1);
      RunGrows(states, steps, from, j, k - 1);
      StepGrows(states[k - 1], steps[k - 1]);
      forall i | 0 <= i < |states[0].nodes| ensures Grows(states[j].nodes[i], states[k].nodes[i]) {
        GrowsOn(states[j].nodes[i], states[k - 1].nodes[i], states[k].nodes[i]);
      }
    }
  }

  lemma PrefixNames(a: seq<string>, b: seq<string>)
    requires a <= b
    ensures SetOf(a) <= SetOf(b)
  {
  }

  /** Some step of the range is a synchronisation of node i, with an ID for every install if `clean`. */
  ghost predicate SyncsIn(steps: seq<Step>, i: nat, from: nat, to: nat, clean: bool) {
    exists k :: from <= k < to && k < |steps| && steps[k].Sync? && steps[k].i == i && (clean ==> steps[k].noId == {})
  }

  lemma SyncPublishes(states: seq<Group>, steps: seq<Step>, from: nat, mid: nat, i: nat)
    requires Run(states, steps) && Start(states[0]) && Whole(steps, from) && from <= mid < |states|
    requires i < |states[0].nodes| && SyncsIn(steps, i, from, mid, false)
    ensures |states[from].nodes| == |states[0].nodes|
    ensures SetOf(states[from].nodes[i].have) <= SetOf(Names(states[mid].ledger)) && states[mid].ledger.Models?
  {
    hide Announced, AnnouncedOver, Installs, SetOf, Reach, Union, Start, Whole;
    var k :| from <= k < mid && k < |steps| && steps[k].Sync? && steps[k].i == i;
    RunGrows(states, steps, from, from, k);
    RunGrows(states, steps, from, k + 1, mid);
    RunGrows(states, steps, from, k, k);
    assert Grows(states[from].nodes[i], states[k].nodes[i]);
    AnnouncedAtOnce(states[k].ledger, states[k].nodes[i].have);
    AnnouncedNames(states[k].ledger, states[k].nodes[i].have);
    PrefixNames(Names(states[k + 1].ledger), Names(states[mid].ledger));
  }

  /** After a round in which every node synchronised once, the list holds every name of the group. */
  lemma FirstRoundCollects(states: seq<Group>, steps: seq<Step>, from: nat, mid: nat)
    requires Run(states, steps) && Start(states[0]) && Whole(steps, from) && from <= mid < |states|
    requires states[0].nodes != [] && forall i | 0 <= i < |states[0].nodes| :: SyncsIn(steps, i, from, mid, false)
    ensures states[mid].ledger.Models? && SetOf(Names(states[mid].ledger)) == Union(states[0])
  {
    hide Announced, Installs, Run, Start, Whole, SyncsIn, Reach;
    RunGrows(states, steps, from, from, mid);
    NothingIsLost(states, steps, from);
    NothingIsLost(states, steps, mid);
    PrefixNames(Names(states[from].ledger), Names(states[mid].ledger));
    SyncPublishes(states, steps, from, mid, 0);
    forall x | x in Union(states[from]) ensures x in SetOf(Names(states[mid].ledger)) {
      if x !in SetOf(Names(states[from].ledger)) {
        var i :| 0 <= i < |states[from].nodes| && x in states[from].nodes[i].have;
        SyncPublishes(states, steps, from, mid, i);
        assert x in SetOf(states[from].nodes[i].have);
      }
    }
    assert SetOf(Names(states[mid].ledger)) <= Union(states[mid]);
  }

  lemma SyncFetches(states: seq<Group>, steps: seq<Step>, from: nat, mid: nat, i: nat)
    requires Run(states, steps) && Start(states[0]) && Whole(steps, from) && from <= mid < |states|
    requires i < |states[0].nodes| && SyncsIn(steps, i, mid, |steps|, true) && states[mid].ledger.Models?
    ensures |states[|steps|].nodes| == |states[0].nodes|
    ensures SetOf(Names(states[mid].ledger)) <= Reach(states[|steps|].nodes[i])
  {
    hide Announced, AnnouncedOver, Installs, SetOf, Union, Start, Whole;
    var k :| mid <= k < |steps| && steps[k].Sync? && steps[k].i == i && steps[k].noId == {};
    RunGrows(states, steps, from, mid, k);
    RunGrows(states, steps, from, k + 1, |steps|);
    assert Grows(states[k + 1].nodes[i], states[|steps|].nodes[i]);
    InstallsAreListed(states[k].ledger, states[k].nodes[i].have, {});
    PrefixNames(Names(states[mid].ledger), Names(states[k].ledger));
    assert Reach(states[k + 1].nodes[i]) == SetOf(states[k].nodes[i].have) + SetOf(states[k + 1].nodes[i].pending);
  }

  /**
   Convergence. Whatever races there were before, after any schedule of whole
   synchronisations in which every node has one turn and then every node another, and
   once the installs have finished, the list and every node hold exactly the names
   the group started with.
   */
  lemma Convergence(states: seq<Group>, steps: seq<Step>, from: nat, mid: nat)
    requires Run(states, steps) && Start(states[0]) && Whole(steps, from) && from <= mid < |states|
    requires forall i | 0 <= i < |states[0].nodes| :: SyncsIn(steps, i, from, mid, false)
    requires forall i | 0 <= i < |states[0].nodes| :: SyncsIn(steps, i, mid, |steps|, true)
    requires states[0].nodes != []
    requires forall i | 0 <= i < |states[|steps|].nodes| :: states[|steps|].nodes[i].pending == []
    ensures var last := states[|steps|];
            && |last.nodes| == |states[0].nodes| && SetOf(Names(last.ledger)) == Union(states[0])
            && forall i | 0 <= i < |last.nodes| :: SetOf(last.nodes[i].have) == Union(states[0])
  {
    hide Announced, Installs, Next, Names, SyncsIn, Start, Whole;
    var last := states[|steps|];
    FirstRoundCollects(states, steps, from, mid);
    RunGrows(states, steps, from, mid, |steps|);
    NothingIsLost(states, steps, |steps|);
    PrefixNames(Names(states[mid].ledger), Names(last.ledger));
    assert SetOf(Names(last.ledger)) <= Union(last);
    forall i | 0 <= i < |last.nodes| ensures SetOf(last.nodes[i].have) == Union(states[0]) {
      SyncFetches(states, steps, from, mid, i);
      assert Reach(last.nodes[i]) == SetOf(last.nodes[i].have);
      assert SetOf(last.nodes[i].have) <= Union(last);
    }
  }
}
