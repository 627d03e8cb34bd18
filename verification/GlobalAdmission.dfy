/**
 The process-wide ceiling on backend work: a channel of slots that configuration
 replaces, and tickets that each return one slot to the channel they came from.
 */
module GlobalAdmission {

  /** config.DefaultMaxConcurrentBackendRequests */
  const DEFAULT_LIMIT := 1024

  /** A slot channel is known by its number in the order of creation. */
  datatype Channel = Channel(capacity: nat, length: nat)

  /** A granted slot: the channel it was taken from, and whether its once ran. */
  datatype Ticket = Ticket(channel: nat, released: bool)

  datatype TakeResult = Granted(ticket: nat) | Full(limit: int)

  /** `current` is -1 until the first configuration or the first acquire. */
  datatype State = State(limit: int, current: int, channels: seq<Channel>, tickets: seq<Ticket>)

  const Init := State(0, -1, [], [])

  function EffectiveLimit(limit: int): nat {
    if limit <= 0 then DEFAULT_LIMIT else limit
  }

  function WithChannel(s: State, limit: int): State {
    var n := EffectiveLimit(limit);
    s.(limit := n, current := |s.channels|, channels := s.channels + [Channel(n, 0)])
  }

  /** The first acquire of an unconfigured process makes the channel. */
  function Configured(s: State): State {
    if s.current < 0 then WithChannel(s, 0) else s
  }

  /** The tickets of channel ch that still hold their slot. */
  function Unreleased(tickets: seq<Ticket>, ch: nat): nat {
    if tickets == [] then 0
    else
      var last := tickets[|tickets| - 1];
      Unreleased(tickets[..|tickets| - 1], ch) + if last.channel == ch && !last.released then 1 else 0
  }

  ghost predicate Valid(s: State) {
    && -1 <= s.current < |s.channels|
    && (s.current >= 0 ==> s.limit == s.channels[s.current].capacity)
    && (forall k | 0 <= k < |s.tickets| :: s.tickets[k].channel < |s.channels|)
    && forall ch | 0 <= ch < |s.channels| ::
         s.channels[ch].length == Unreleased(s.tickets, ch) <= s.channels[ch].capacity
  }

  /** The send on channel ch, or its default branch.  Acquire read ch and the limit before. */
  function Take(s: State, ch: nat, limit: int): (State, TakeResult)
    requires ch < |s.channels|
  {
    var c := s.channels[ch];
    if c.length < c.capacity then
      (s.(channels := s.channels[ch := c.(length := c.length + 1)], tickets := s.tickets + [Ticket(ch, false)]),
       Granted(|s.tickets|))
    else (s, Full(limit))
  }

  /** The receive of a first release has a slot to take; otherwise it would wait. */
  predicate CanRelease(s: State, ticket: nat) {
    && ticket < |s.tickets|
    && var t := s.tickets[ticket];
       t.released || (t.channel < |s.channels| && s.channels[t.channel].length > 0)
  }

  /** The release function of a ticket: only its first call takes a slot out of the channel. */
  function Release(s: State, ticket: nat): State
    requires CanRelease(s, ticket)
  {
    var t := s.tickets[ticket];
    if t.released then s
    else
      var c := s.channels[t.channel];
      s.(channels := s.channels[t.channel := c.(length := c.length - 1)],
         tickets := s.tickets[ticket := t.(released := true)])
  }

  lemma {:induction false} UnreleasedAfter(tickets: seq<Ticket>, k: nat, ch: nat)
    requires k < |tickets|
    ensures Unreleased(tickets[k := tickets[k].(released := true)], ch)
            == Unreleased(tickets, ch) - (if tickets[k].channel == ch && !tickets[k].released then 1 else 0)
  {
    var after := tickets[k := tickets[k].(released := true)];
    var n := |tickets| - 1;
    if k == n {
      assert after[..n] == tickets[..n];
    } else {
      UnreleasedAfter(tickets[..n], k, ch);
      assert after[..n] == tickets[..n][k := tickets[k].(released := true)];
    }
  }

  lemma {:induction false} UnreleasedIsThere(tickets: seq<Ticket>, k: nat)
    requires k < |tickets| && !tickets[k].released
    ensures Unreleased(tickets, tickets[k].channel) > 0
  {
    if k < |tickets| - 1 {
      UnreleasedIsThere(tickets[..|tickets| - 1], k);
    }
  }

  lemma {:induction false} NoneOfNewChannel(tickets: seq<Ticket>, ch: nat)
    requires forall k | 0 <= k < |tickets| :: tickets[k].channel < ch
    ensures Unreleased(tickets, ch) == 0
  {
    if tickets != [] {
      NoneOfNewChannel(tickets[..|tickets| - 1], ch);
    }
  }

  lemma ConfigureKeeps(s: State, limit: int)
    requires Valid(s)
    ensures Valid(WithChannel(s, limit))
  {
    NoneOfNewChannel(s.tickets, |s.channels|);
  }

  lemma TakeKeeps(s: State, ch: nat, limit: int)
    requires Valid(s) && ch < |s.channels|
    ensures Valid(Take(s, ch, limit).0)
  {
    var t := Take(s, ch, limit).0;
    if |t.tickets| > |s.tickets| {
      assert t.tickets[..|t.tickets| - 1] == s.tickets;
    }
  }

  lemma ReleaseKeeps(s: State, ticket: nat)
    requires Valid(s) && CanRelease(s, ticket)
    ensures Valid(Release(s, ticket))
  {
    forall ch | 0 <= ch < |s.channels|
      ensures Unreleased(s.tickets[ticket := s.tickets[ticket].(released := true)], ch) ==
              Unreleased(s.tickets, ch) - (if s.tickets[ticket].channel == ch && !s.tickets[ticket].released then 1 else 0)
    {
      UnreleasedAfter(s.tickets, ticket, ch);
    }
  }

  // ---------- Runs ----------

  /** `Read` is the locked part of an acquire; `Send` may come any time after it. */
  datatype Step = Configure(limit: int) | Read | Send(channel: nat, limit: int) | Return(ticket: nat)

  predicate Enabled(s: State, step: Step) {
    match step
    case Send(ch, _) => ch < |s.channels|
    case Return(ticket) => CanRelease(s, ticket)
    case _ => true
  }

  function Next(s: State, step: Step): State
    requires Enabled(s, step)
  {
    match step
    case Configure(limit) => WithChannel(s, limit)
    case Read => Configured(s)
    case Send(ch, limit) => Take(s, ch, limit).0
    case Return(ticket) => Release(s, ticket)
  }

  lemma StepKeeps(s: State, step: Step)
    requires Valid(s) && Enabled(s, step)
    ensures Valid(Next(s, step))
  {
    match step
    case Configure(limit) => ConfigureKeeps(s, limit);
    case Read => ConfigureKeeps(s, 0);
    case Send(ch, limit) => TakeKeeps(s, ch, limit);
    case Return(ticket) => ReleaseKeeps(s, ticket);
  }

  ghost predicate Trace(states: seq<State>, steps: seq<Step>) {
    && |states| == |steps| + 1 && states[0] == Init
    && forall i | 0 <= i < |steps| :: Enabled(states[i], steps[i]) && states[i + 1] == Next(states[i], steps[i])
  }

  /**
   In every run, however acquires, releases and reconfigurations interleave, the
   length of each channel is the number of its unreleased tickets and within its
   capacity, and no release of a ticket, the first or a later one, ever waits.
   */
  lemma {:induction false} OccupancyIsTickets(states: seq<State>, steps: seq<Step>, i: nat)
    requires Trace(states, steps) && i < |states|
    ensures Valid(states[i])
    ensures forall k | 0 <= k < |states[i].tickets| :: CanRelease(states[i], k)
  {
    hide Next, Enabled;
    if i > 0 {
      OccupancyIsTickets(states, steps, i - 1);
      StepKeeps(states[i - 1], steps[i - 1]);
    }
    forall k | 0 <= k < |states[i].tickets| ensures CanRelease(states[i], k) {
      NeverWaits(states[i], k);
    }
  }

  lemma NeverWaits(s: State, ticket: nat)
    requires Valid(s) && ticket < |s.tickets|
    ensures CanRelease(s, ticket)
  {
    if !s.tickets[ticket].released {
      UnreleasedIsThere(s.tickets, ticket);
    }
  }

  /**
   Tickets stay with their channel: over any stretch of a run in which nothing is
   sent to channel ch, its length falls by exactly its own tickets released, so
   tickets of earlier or later configurations never free a slot of it.
   */
  lemma {:induction false} ForeignTicketsNeverFree(states: seq<State>, steps: seq<Step>, i: nat, j: nat, ch: nat)
    requires Trace(states, steps) && i <= j < |states| && ch < |states[i].channels|
    requires forall k | i <= k < j :: !(steps[k].Send? && steps[k].channel == ch)
    ensures ch < |states[j].channels| && states[j].channels[ch].capacity == states[i].channels[ch].capacity
    ensures states[i].channels[ch].length - states[j].channels[ch].length == ReturnsTo(states, steps, i, j, ch)
    ensures ReturnsTo(states, steps, i, j, ch) >= 0
    decreases j - i
  {
    hide Next, Enabled, Valid;
    if i < j {
      ForeignTicketsNeverFree(states, steps, i, j - 1, ch);
      OneStep(states[j - 1], steps[j - 1], ch);
    }
  }

  /** The length of channel ch falls when one of its own tickets is returned first, and only then. */
  lemma OneStep(s: State, step: Step, ch: nat)
    requires Enabled(s, step) && ch < |s.channels| && !(step.Send? && step.channel == ch)
    ensures var t := Next(s, step);
            && ch < |t.channels| && t.channels[ch].capacity == s.channels[ch].capacity
            && s.channels[ch].length - t.channels[ch].length ==
               if step.Return? && step.ticket < |s.tickets| && s.tickets[step.ticket] == Ticket(ch, false) then 1 else 0
  {
  }

  /** The first returns, between two points of a run, of tickets that were taken from channel ch. */
  ghost function ReturnsTo(states: seq<State>, steps: seq<Step>, i: nat, j: nat, ch: nat): int
    requires |states| == |steps| + 1 && i <= j < |states|
    decreases j - i
  {
    if i == j then 0
    else
      ReturnsTo(states, steps, i, j - 1, ch) +
      var s, step := states[j - 1], steps[j - 1];
      if step.Return? && step.ticket < |s.tickets| && s.tickets[step.ticket] == Ticket(ch, false) then 1 else 0
  }

  // ---------- What the entry points do, for every reachable state ----------

  ghost function HeldTickets(tickets: seq<Ticket>, ch: nat): set<nat> {
    set k: nat | k < |tickets| && tickets[k].channel == ch && !tickets[k].released
  }

  lemma {:induction false} UnreleasedCounts(tickets: seq<Ticket>, ch: nat)
    ensures Unreleased(tickets, ch) == |HeldTickets(tickets, ch)|
  {
    if tickets != [] {
      var front, n := tickets[..|tickets| - 1], |tickets| - 1;
      UnreleasedCounts(front, ch);
      var here := tickets[n].channel == ch && !tickets[n].released;
      assert HeldTickets(tickets, ch) == if here then HeldTickets(front, ch) + {n} else HeldTickets(front, ch);
    }
  }

  /**
   An acquire is granted exactly when fewer tickets of the channel it read are out than
   the channel has slots, and gets a ticket of that channel; else it is told the limit
   that it read.  It touches no other channel and no ticket.
   */
  lemma SendGrants(s: State, ch: nat, limit: int)
    requires Valid(s) && ch < |s.channels|
    ensures var (t, r) := Take(s, ch, limit);
            var free := |HeldTickets(s.tickets, ch)| < s.channels[ch].capacity;
            && r == (if free then Granted(|s.tickets|) else Full(limit))
            && t.tickets == s.tickets + (if free then [Ticket(ch, false)] else [])
            && t.limit == s.limit && t.current == s.current && |t.channels| == |s.channels|
            && (forall k | 0 <= k < |s.channels| && k != ch :: t.channels[k] == s.channels[k])
  {
    UnreleasedCounts(s.tickets, ch);
  }

  /**
   A configuration opens an empty channel of the limit it names, of 1024 slots when that
   is not positive, and leaves every older channel and ticket as it is.  The read of an
   acquire does so only once, before any configuration.
   */
  lemma ConfigureOpens(s: State, limit: int)
    ensures var t, n: nat := Next(s, Configure(limit)), if limit > 0 then limit else 1024;
            && t.limit == n && t.current == |s.channels| && t.tickets == s.tickets
            && t.channels == s.channels + [Channel(n, 0)]
    ensures Next(s, Read) == if s.current >= 0 then s else State(1024, |s.channels|, s.channels + [Channel(1024, 0)], s.tickets)
  {
  }

  /** The first return of a ticket frees exactly one slot of its own channel; a later one does nothing. */
  lemma ReturnFrees(s: State, ticket: nat)
    requires Valid(s) && ticket < |s.tickets|
    ensures CanRelease(s, ticket)
    ensures var t, ch := Release(s, ticket), s.tickets[ticket].channel;
            && t == s.(channels := t.channels, tickets := s.tickets[ticket := Ticket(ch, true)])
            && |t.channels| == |s.channels|
            && forall k | 0 <= k < |s.channels| ::
                 && t.channels[k].capacity == s.channels[k].capacity
                 && t.channels[k].length == s.channels[k].length - if k == ch && !s.tickets[ticket].released then 1 else 0
  {
    NeverWaits(s, ticket);
  }

  /** In every run the number of tickets out of a channel is within its slots, and what it reports as occupied. */
  lemma HeldWithinLimit(states: seq<State>, steps: seq<Step>, i: nat, ch: nat)
    requires Trace(states, steps) && i < |states| && ch < |states[i].channels|
    ensures states[i].channels[ch].length == |HeldTickets(states[i].tickets, ch)| <= states[i].channels[ch].capacity
    ensures states[i].current >= 0 ==>
              states[i].current < |states[i].channels| && states[i].limit == states[i].channels[states[i].current].capacity
  {
    OccupancyIsTickets(states, steps, i);
    UnreleasedCounts(states[i].tickets, ch);
  }

  /** The admission state of the process, as its entry points change it. */
  class Admission {
    var limit: int
    var current: int
    var channels: seq<Channel>
    var tickets: seq<Ticket>

    function Now(): State
      reads this
    {
      State(limit, current, channels, tickets)
    }

    constructor ()
      ensures Now() == Init && Valid(Now())
    {
      limit, current, channels, tickets := 0, -1, [], [];
    }

    method Configure(newLimit: int)
      requires Valid(Now())
      modifies this
      ensures Valid(Now()) && Now() == WithChannel(old(Now()), newLimit)
      ensures limit > 0
    {
      var n := newLimit;
      if n <= 0 {
        n := DEFAULT_LIMIT;
      }
      ConfigureKeeps(Now(), newLimit);
      limit, current := n, |channels|;
      channels := channels + [Channel(n, 0)];
    }

    /** The locked part of an acquire: which channel to try, and the limit to report. */
    method Read() returns (ch: nat, seen: int)
      requires Valid(Now())
      modifies this
      ensures Valid(Now()) && Now() == Configured(old(Now()))
      ensures ch == current && seen == limit == channels[ch].capacity
    {
      if current < 0 {
        Configure(0);
      }
      ch, seen := current, limit;
    }

    /** The rest of an acquire: it never waits. */
    method Send(ch: nat, seen: int) returns (r: TakeResult)
      requires Valid(Now()) && ch < |channels|
      modifies this
      ensures Valid(Now()) && (Now(), r) == Take(old(Now()), ch, seen)
    {
      TakeKeeps(Now(), ch, seen);
      var c := channels[ch];
      if c.length < c.capacity {
        r := Granted(|tickets|);
        channels := channels[ch := c.(length := c.length + 1)];
        tickets := tickets + [Ticket(ch, false)];
      } else {
        r := Full(seen);
      }
    }

    method Return(ticket: nat)
      requires Valid(Now()) && ticket < |tickets|
      modifies this
      ensures Valid(Now()) && CanRelease(old(Now()), ticket) && Now() == Release(old(Now()), ticket)
    {
      NeverWaits(Now(), ticket);
      ReleaseKeeps(Now(), ticket);
      var t := tickets[ticket];
      if !t.released {
        channels := channels[t.channel := channels[t.channel].(length := channels[t.channel].length - 1)];
        tickets := tickets[ticket := t.(released := true)];
      }
    }

    /** The occupancy of the current channel; an unconfigured process has none. */
    method InFlight() returns (n: nat)
      requires Valid(Now())
      ensures n == if current < 0 then 0 else |HeldTickets(tickets, current)|
      ensures current >= 0 ==> n <= limit
    {
      n := 0;
      if current >= 0 {
        UnreleasedCounts(tickets, current);
        n := channels[current].length;
      }
    }
  }
}
