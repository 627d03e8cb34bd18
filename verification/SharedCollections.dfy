/**
 Collections that others share with a user: the addresses they get beside the
 user's own names, how a name is resolved, and what a call on a name runs on.
 */
module SharedCollections {
  import opened Basics
  import opened Sorting

  /** A collection in the sharing service: its ID, its name under its owner, and the user's role on it. */
  datatype Ref = Ref(id: string, name: string, owner: string, ownerName: string, role: string, everyone: bool)

  datatype Shared = Shared(address: string, ref: Ref)

  const PREFIX := "shared:"

  function Unambiguous(r: Ref): string {
    PREFIX + r.id
  }

  function CountName(refs: seq<Ref>, name: string): nat {
    if refs == [] then 0
    else CountName(refs[..|refs| - 1], name) + if refs[|refs| - 1].name == name then 1 else 0
  }

  function AddressOf(refs: seq<Ref>, own: seq<string>, r: Ref): string {
    if r.name in own || CountName(refs, r.name) > 1 || PREFIX <= r.name then Unambiguous(r) else r.name
  }

  function Listed(refs: seq<Ref>, own: seq<string>): seq<Shared> {
    seq(|refs|, i requires 0 <= i < |refs| => Shared(AddressOf(refs, own, refs[i]), refs[i]))
  }

  function ByAddress(s: Shared): string {
    s.address
  }

  /** The list a user sees; a listing that fails, or no user, gives none. */
  function Listing(user: string, refs: Option<seq<Ref>>, own: seq<string>): seq<Shared> {
    if user == "" || refs.None? then [] else Sort(ByAddress, Listed(refs.value, own))
  }

  lemma {:induction false} CountGrows(refs: seq<Ref>, i: nat, name: string)
    requires i < |refs|
    ensures CountName(refs[..i + 1], name) == CountName(refs[..i], name) + if refs[i].name == name then 1 else 0
  {
    assert refs[..i + 1][..i] == refs[..i];
  }

  method CountNames(refs: seq<Ref>) returns (count: map<string, nat>)
    ensures forall r | r in refs :: r.name in count && count[r.name] == CountName(refs, r.name)
  {
    hide CountName;
    count := map[];
    CountNothing();
    var i := 0;
    while i < |refs|
      invariant i <= |refs|
      invariant forall name :: (if name in count then count[name] else 0) == CountName(refs[..i], name)
      invariant forall k | 0 <= k < i :: refs[k].name in count
    {
      forall name {
        CountGrows(refs, i, name);
      }
      var name := refs[i].name;
      count := count[name := (if name in count then count[name] else 0) + 1];
      i := i + 1;
    }
    assert refs[..i] == refs;
  }

  lemma CountNothing()
    ensures forall name :: CountName([], name) == 0
  {
  }

  method List(user: string, answer: Option<seq<Ref>>, own: seq<string>) returns (out: seq<Shared>)
    ensures out == Listing(user, answer, own)
  {
    hide Sort, CountName;
    if user == "" || answer.None? {
      return [];
    }
    var refs := answer.value;
    var count := CountNames(refs);
    out := [];
    var i := 0;
    while i < |refs|
      invariant i <= |refs| && out == Listed(refs, own)[..i]
    {
      var r := refs[i];
      var addr := r.name;
      if r.name in own || count[r.name] > 1 || PREFIX <= r.name {
        addr := PREFIX + r.id;
      }
      out := out + [Shared(addr, r)];
      i := i + 1;
    }
    assert out == Listed(refs, own);
    out := Sort(ByAddress, out);
  }

  // ---------- Addresses ----------

  predicate DistinctIds(refs: seq<Ref>) {
    forall i, j | 0 <= i < j < |refs| :: refs[i].id != refs[j].id
  }

  lemma {:induction false} CountAtLeast(refs: seq<Ref>, i: nat)
    requires i < |refs|
    ensures CountName(refs, refs[i].name) >= 1
  {
    if i < |refs| - 1 {
      CountAtLeast(refs[..|refs| - 1], i);
    }
  }

  lemma {:induction false} CountTwice(refs: seq<Ref>, i: nat, j: nat)
    requires i < j < |refs| && refs[i].name == refs[j].name
    ensures CountName(refs, refs[i].name) >= 2
  {
    if j < |refs| - 1 {
      CountTwice(refs[..|refs| - 1], i, j);
    } else {
      CountAtLeast(refs[..|refs| - 1], i);
    }
  }

  lemma {:induction false} CountOne(refs: seq<Ref>, i: nat)
    requires i < |refs| && CountName(refs, refs[i].name) > 1
    ensures exists j | 0 <= j < |refs| :: j != i && refs[j].name == refs[i].name
  {
    var last := |refs| - 1;
    if refs[last].name != refs[i].name {
      var front := refs[..last];
      CountOne(front, i);
      var j :| 0 <= j < |front| && j != i && front[j].name == front[i].name;
      assert refs[j] == front[j];
    } else if i == last {
      var j := SomeNamed(refs[..last], refs[i].name);
      assert refs[j].name == refs[i].name;
    }
  }

  /**
   The address of a share: its name when no other share has that name, the user has no
   collection of it and it does not look like an address itself; else "shared:" and its ID.
   */
  lemma AddressIs(refs: seq<Ref>, own: seq<string>, i: nat)
    requires i < |refs|
    ensures var r, addr := refs[i], Listed(refs, own)[i].address;
            var plain := r.name !in own && !("shared:" <= r.name) && forall j | 0 <= j < |refs| && j != i :: refs[j].name != r.name;
            addr == if plain then r.name else "shared:" + r.id
  {
    hide CountName;
    if CountName(refs, refs[i].name) > 1 {
      CountOne(refs, i);
    }
    forall j | 0 <= j < |refs| && j != i && refs[j].name == refs[i].name ensures CountName(refs, refs[i].name) > 1 {
      CountTwice(refs, if i < j then i else j, if i < j then j else i);
    }
  }

  /** The list a user sees: every share once, with its address, in the order of the addresses; nothing without a user or an answer. */
  lemma ListingIs(user: string, refs: Option<seq<Ref>>, own: seq<string>)
    ensures user == "" || refs.None? ==> Listing(user, refs, own) == []
    ensures user != "" && refs.Some? ==>
              && Sorted(ByAddress, Listing(user, refs, own))
              && multiset(Listing(user, refs, own)) == multiset(Listed(refs.value, own))
              && |Listed(refs.value, own)| == |refs.value|
              && forall i | 0 <= i < |refs.value| :: Listed(refs.value, own)[i].ref == refs.value[i]
  {
    if refs.Some? {
      SortContents(ByAddress, Listed(refs.value, own));
    }
  }

  /** An address with the prefix is the unambiguous one. */
  lemma PrefixedAddress(refs: seq<Ref>, own: seq<string>, r: Ref)
    ensures PREFIX <= AddressOf(refs, own, r) <==> AddressOf(refs, own, r) == Unambiguous(r)
    ensures AddressOf(refs, own, r) != Unambiguous(r) ==>
              AddressOf(refs, own, r) == r.name && r.name !in own && CountName(refs, r.name) <= 1 && !(PREFIX <= r.name)
  {
  }

  lemma UnambiguousIsInjective(r: Ref, t: Ref)
    requires Unambiguous(r) == Unambiguous(t)
    ensures r.id == t.id
  {
    assert r.id == Unambiguous(r)[|PREFIX|..] && t.id == Unambiguous(t)[|PREFIX|..];
  }

  /** What a name can match is one collection, by its address or by its unambiguous name. */
  predicate Matches(s: Shared, name: string) {
    s.address == name || Unambiguous(s.ref) == name
  }

  lemma OneMatch(refs: seq<Ref>, own: seq<string>, i: nat, j: nat, name: string)
    requires DistinctIds(refs) && i < |refs| && j < |refs|
    requires Matches(Listed(refs, own)[i], name) && Matches(Listed(refs, own)[j], name)
    ensures i == j
  {
    hide AddressOf, CountName, Unambiguous;
    var r, t := refs[i], refs[j];
    PrefixedAddress(refs, own, r);
    PrefixedAddress(refs, own, t);
    if i != j {
      HasPrefix(r);
      HasPrefix(t);
      if Unambiguous(r) == Unambiguous(t) {
        UnambiguousIsInjective(r, t);
      } else {
        CountTwice(refs, if i < j then i else j, if i < j then j else i);
      }
    }
  }

  lemma HasPrefix(r: Ref)
    ensures PREFIX <= Unambiguous(r)
  {
  }

  /** With distinct IDs no two shared collections get the same address. */
  lemma AddressesDiffer(refs: seq<Ref>, own: seq<string>)
    requires DistinctIds(refs)
    ensures DistinctKeys(ByAddress, Listed(refs, own))
    ensures StrictlySorted(ByAddress, Sort(ByAddress, Listed(refs, own)))
  {
    hide AddressOf, Sort;
    var l := Listed(refs, own);
    forall i, j | 0 <= i < j < |l| ensures ByAddress(l[i]) != ByAddress(l[j]) {
      if l[i].address == l[j].address {
        OneMatch(refs, own, i, j, l[i].address);
      }
    }
    SortDistinct(ByAddress, l);
  }

  // ---------- Resolving a name ----------

  function FirstMatch(list: seq<Shared>, name: string): Option<Shared> {
    if list == [] then None
    else if Matches(list[0], name) then Some(list[0])
    else FirstMatch(list[1..], name)
  }

  function Named(name: string): Shared -> bool {
    (s: Shared) => s.ref.name == name
  }

  function Resolve(list: seq<Shared>, own: seq<string>, name: string): Option<Shared> {
    var found := Filter(Named(name), list);
    if FirstMatch(list, name).Some? then FirstMatch(list, name)
    else if |found| == 1 && name !in own then Some(found[0])
    else None
  }

  method Find(list: seq<Shared>, own: seq<string>, name: string) returns (r: Option<Shared>)
    ensures r == Resolve(list, own, name)
  {
    var found: seq<Shared> := [];
    var i := 0;
    while i < |list|
      invariant i <= |list| && found == Filter(Named(name), list[..i])
      invariant FirstMatch(list, name) == FirstMatch(list[i..], name)
    {
      var s := list[i];
      if s.address == name || PREFIX + s.ref.id == name {
        return Some(s);
      }
      assert list[..i + 1][..i] == list[..i] && list[i..][1..] == list[i + 1..];
      if s.ref.name == name {
        found := found + [s];
      }
      i := i + 1;
    }
    assert list[..i] == list;
    if |found| == 1 && name !in own {
      return Some(found[0]);
    }
    return None;
  }

  lemma {:induction false} FirstMatchFinds(list: seq<Shared>, name: string)
    ensures FirstMatch(list, name).Some? ==> FirstMatch(list, name).value in list && Matches(FirstMatch(list, name).value, name)
    ensures forall k | 0 <= k < |list| && Matches(list[k], name) :: FirstMatch(list, name).Some?
  {
    if list != [] {
      FirstMatchFinds(list[1..], name);
      assert list == [list[0]] + list[1..];
    }
  }

  lemma {:induction false} FoundIsCount(refs: seq<Ref>, own: seq<string>, k: nat, name: string)
    requires k <= |refs|
    ensures |Filter(Named(name), Listed(refs, own)[..k])| == CountName(refs[..k], name)
  {
    if k > 0 {
      FoundIsCount(refs, own, k - 1, name);
      assert refs[..k][..k - 1] == refs[..k - 1];
      assert Listed(refs, own)[..k][..k - 1] == Listed(refs, own)[..k - 1];
    }
  }

  /** The collections a sorted listing holds under a name are as many as the shares of that name. */
  lemma FoundInListing(refs: seq<Ref>, own: seq<string>, name: string)
    ensures |Filter(Named(name), Sort(ByAddress, Listed(refs, own)))| == CountName(refs, name)
  {
    hide Filter, Sort, AddressOf, CountName;
    var l := Listed(refs, own);
    FilterSort(ByAddress, Named(name), l);
    SortContents(ByAddress, Filter(Named(name), l));
    FoundIsCount(refs, own, |refs|, name);
    assert l[..|refs|] == l && refs[..|refs|] == refs;
  }

  /**
   What a name denotes, without addresses or order: the collection whose unambiguous
   name it is; else the only collection of that name, unless the user has one of it.
   */
  predicate Denotes(refs: seq<Ref>, own: seq<string>, name: string, i: nat)
    requires i < |refs|
  {
    || Unambiguous(refs[i]) == name
    || (refs[i].name == name && CountName(refs, name) == 1 && name !in own
        && forall k | 0 <= k < |refs| :: Unambiguous(refs[k]) != name)
  }

  lemma DenotesIsMatch(refs: seq<Ref>, own: seq<string>, name: string, i: nat)
    requires i < |refs| && Matches(Listed(refs, own)[i], name)
    ensures Denotes(refs, own, name, i)
  {
    hide CountName, AddressOf, Unambiguous;
    PrefixedAddress(refs, own, refs[i]);
    if Unambiguous(refs[i]) != name {
      CountAtLeast(refs, i);
      forall k | 0 <= k < |refs| ensures Unambiguous(refs[k]) != name {
        HasPrefix(refs[k]);
      }
    }
  }

  /** Resolution gives only a collection the name denotes. */
  lemma ResolvedIsDenoted(refs: seq<Ref>, own: seq<string>, name: string) returns (i: nat)
    requires Resolve(Sort(ByAddress, Listed(refs, own)), own, name).Some?
    ensures i < |refs| && Denotes(refs, own, name, i)
    ensures Resolve(Sort(ByAddress, Listed(refs, own)), own, name) == Some(Listed(refs, own)[i])
  {
    hide Sort, Filter, CountName, AddressOf, Unambiguous;
    var l := Listed(refs, own);
    var list := Sort(ByAddress, l);
    SortContents(ByAddress, l);
    FirstMatchFinds(list, name);
    var s := Resolve(list, own, name).value;
    if FirstMatch(list, name).None? {
      FilterContents(Named(name), list);
      FoundInListing(refs, own, name);
      assert Filter(Named(name), list)[0] == s;
    }
    assert s in list;
    var m :| 0 <= m < |list| && list[m] == s;
    assert list[m] in l;
    i :| 0 <= i < |l| && l[i] == s;
    if Matches(s, name) {
      DenotesIsMatch(refs, own, name, i);
    } else {
      forall k | 0 <= k < |refs| ensures Unambiguous(refs[k]) != name {
        assert l[k] in list;
        var q :| 0 <= q < |list| && list[q] == l[k];
        assert !Matches(list[q], name);
      }
    }
  }

  /** A name never denotes two collections. */
  lemma DenotesOne(refs: seq<Ref>, own: seq<string>, name: string, i: nat, j: nat)
    requires DistinctIds(refs) && i < |refs| && j < |refs|
    requires Denotes(refs, own, name, i) && Denotes(refs, own, name, j)
    ensures i == j
  {
    hide CountName, Unambiguous;
    if i != j {
      if Unambiguous(refs[i]) == name {
        UnambiguousIsInjective(refs[i], refs[j]);
      } else {
        CountTwice(refs, if i < j then i else j, if i < j then j else i);
      }
    }
  }

  /** Every collection a name denotes is found: resolution is exactly denotation. */
  lemma ResolveIsDenotation(refs: seq<Ref>, own: seq<string>, name: string, i: nat)
    requires DistinctIds(refs) && i < |refs|
    ensures Resolve(Sort(ByAddress, Listed(refs, own)), own, name) == Some(Listed(refs, own)[i])
            <==> Denotes(refs, own, name, i)
  {
    hide Sort, Filter, AddressOf, CountName, Unambiguous, Denotes;
    var l := Listed(refs, own);
    var list := Sort(ByAddress, l);
    if Denotes(refs, own, name, i) {
      DenotedResolves(refs, own, name, i);
    }
    if Resolve(list, own, name).Some? {
      var j := ResolvedIsDenoted(refs, own, name);
      if Denotes(refs, own, name, i) {
        DenotesOne(refs, own, name, i, j);
      } else {
        assert l[i] == l[j] ==> refs[i] == refs[j];
      }
    }
  }

  lemma DenotedResolves(refs: seq<Ref>, own: seq<string>, name: string, i: nat)
    requires i < |refs| && Denotes(refs, own, name, i)
    ensures Resolve(Sort(ByAddress, Listed(refs, own)), own, name).Some?
  {
    hide Sort, Filter, AddressOf, CountName, Unambiguous;
    var l := Listed(refs, own);
    var list := Sort(ByAddress, l);
    SortContents(ByAddress, l);
    FirstMatchFinds(list, name);
    FoundInListing(refs, own, name);
    if Unambiguous(refs[i]) == name {
      assert l[i] in list;
      var q :| 0 <= q < |list| && list[q] == l[i];
      assert Matches(list[q], name);
    }
  }

  /** An assigned address, and the unambiguous name, resolve to exactly that collection. */
  lemma AddressResolves(refs: seq<Ref>, own: seq<string>, i: nat)
    requires DistinctIds(refs) && i < |refs|
    ensures var list := Sort(ByAddress, Listed(refs, own));
            && Resolve(list, own, Listed(refs, own)[i].address) == Some(Listed(refs, own)[i])
            && Resolve(list, own, Unambiguous(refs[i])) == Some(Listed(refs, own)[i])
  {
    hide Sort, Resolve, AddressOf, Unambiguous, Denotes;
    var s := Listed(refs, own)[i];
    DenotesIsMatch(refs, own, s.address, i);
    DenotesIsMatch(refs, own, Unambiguous(refs[i]), i);
    ResolveIsDenotation(refs, own, s.address, i);
    ResolveIsDenotation(refs, own, Unambiguous(refs[i]), i);
  }

  /** A name without the prefix resolves exactly when one collection has it and the user has none of it. */
  lemma BareNameResolves(refs: seq<Ref>, own: seq<string>, name: string)
    requires DistinctIds(refs) && !(PREFIX <= name)
    ensures Resolve(Sort(ByAddress, Listed(refs, own)), own, name).Some? <==> CountName(refs, name) == 1 && name !in own
  {
    hide Sort, Filter, AddressOf, Unambiguous, Resolve;
    forall k | 0 <= k < |refs| ensures Unambiguous(refs[k]) != name {
      HasPrefix(refs[k]);
    }
    if Resolve(Sort(ByAddress, Listed(refs, own)), own, name).Some? {
      var _ := ResolvedIsDenoted(refs, own, name);
    }
    if CountName(refs, name) == 1 && name !in own {
      var i := SomeNamed(refs, name);
      DenotedResolves(refs, own, name, i);
    }
  }

  lemma {:induction false} SomeNamed(refs: seq<Ref>, name: string) returns (i: nat)
    requires CountName(refs, name) >= 1
    ensures i < |refs| && refs[i].name == name
  {
    i := |refs| - 1;
    if refs[i].name != name {
      i := SomeNamed(refs[..i], name);
    }
  }

  // ---------- Running on a name ----------

  datatype Action = Read | Output | Write | Schema | Share | Delete

  function RolesFor(a: Action): seq<string> {
    match a
    case Read => ["viewer", "editor"]
    case Output => ["viewer", "editor"]
    case Write => ["editor"]
    case _ => []
  }

  /** What a call works on: whose collection, and how its owner calls it. */
  datatype Target = Target(owner: string, name: string)

  datatype Answer = NotFound | RoleDoesNotAllow | ListingFailed | FromRun | FromAdmission

  /** What the call ran on, and whose answer it gave. */
  datatype Reply = Reply(ran: Option<Target>, answer: Answer)

  /** The answers of the services a call asks. */
  datatype Services = Services(
    collections: bool, own: Option<seq<string>>, shares: Option<seq<Ref>>,
    sharing: bool, admits: bool, denied: bool)

  function OnShared(sv: Services, target: Option<Shared>, action: Action): Reply {
    if target.None? then Reply(None, NotFound)
    else if target.value.ref.role !in RolesFor(action) then Reply(None, RoleDoesNotAllow)
    else if !sv.sharing then Reply(None, NotFound)
    else
      var t := target.value.ref;
      Reply(if sv.admits then Some(Target(t.owner, t.name)) else None,
            if sv.denied then NotFound else if sv.admits then FromRun else FromAdmission)
  }

  /** The call as a function of the services' answers. */
  function Call(sv: Services, user: string, name: string, action: Action): Reply {
    if !sv.collections then Reply(None, NotFound)
    else if sv.own.None? then Reply(None, ListingFailed)
    else if name in sv.own.value || user == "" then Reply(Some(Target(user, name)), FromRun)
    else OnShared(sv, Resolve(Listing(user, sv.shares, sv.own.value), sv.own.value, name), action)
  }

  /** A call on a name; the loop over the roles follows the program. */
  method WithCollection(sv: Services, user: string, name: string, action: Action) returns (r: Reply)
    ensures r == Call(sv, user, name, action)
  {
    hide Listing, Resolve;
    if !sv.collections {
      return Reply(None, NotFound);
    }
    if sv.own.None? {
      return Reply(None, ListingFailed);
    }
    var own := sv.own.value;
    if name in own || user == "" {
      return Reply(Some(Target(user, name)), FromRun);
    }
    var list := List(user, sv.shares, own);
    var target := Find(list, own, name);
    if target.None? {
      return Reply(None, NotFound);
    }
    var allowed, roles, i := false, RolesFor(action), 0;
    while i < |roles|
      invariant i <= |roles| && allowed == (target.value.ref.role in roles[..i])
    {
      assert roles[..i + 1] == roles[..i] + [roles[i]];
      allowed := allowed || roles[i] == target.value.ref.role;
      i := i + 1;
    }
    assert roles[..i] == roles;
    if !allowed {
      return Reply(None, RoleDoesNotAllow);
    }
    if !sv.sharing {
      return Reply(None, NotFound);
    }
    var ran := None;
    if sv.admits {
      ran := Some(Target(target.value.ref.owner, target.value.ref.name));
    }
    return Reply(ran, if sv.denied then NotFound else if sv.admits then FromRun else FromAdmission);
  }

  ghost predicate Working(sv: Services) {
    sv.collections && sv.own.Some? && sv.shares.Some? && sv.sharing && sv.admits && DistinctIds(sv.shares.value)
  }

  /** What a share allows: an editor reads, writes and outputs, a viewer reads and outputs, and nobody else does anything. */
  predicate RoleAllows(role: string, action: Action) {
    || (role == "editor" && (action == Read || action == Output || action == Write))
    || (role == "viewer" && (action == Read || action == Output))
  }

  /**
   A call on the name of a share, whatever the services answer: it runs on the collection
   exactly when the role allows the action and sharing is on and admits it; without the
   role it is told so, and a share that is denied answers as one that does not exist.
   */
  lemma ShareAnswers(sv: Services, user: string, name: string, i: nat, action: Action)
    requires sv.collections && sv.own.Some? && sv.shares.Some? && DistinctIds(sv.shares.value)
    requires user != "" && name !in sv.own.value
    requires i < |sv.shares.value| && Denotes(sv.shares.value, sv.own.value, name, i)
    ensures var r := sv.shares.value[i];
            var reply := Call(sv, user, name, action);
            && (reply.ran == Some(Target(r.owner, r.name)) <==> RoleAllows(r.role, action) && sv.sharing && sv.admits)
            && (reply.ran.Some? ==> reply.ran == Some(Target(r.owner, r.name)))
            && (reply.answer == RoleDoesNotAllow <==> !RoleAllows(r.role, action))
            && (reply.answer == NotFound <==> RoleAllows(r.role, action) && (!sv.sharing || sv.denied))
            && (reply.answer == FromRun <==> RoleAllows(r.role, action) && sv.sharing && !sv.denied && sv.admits)
            && (reply.answer == FromAdmission <==> RoleAllows(r.role, action) && sv.sharing && !sv.denied && !sv.admits)
  {
    hide Sort, Resolve, Denotes, AddressOf;
    ResolveIsDenotation(sv.shares.value, sv.own.value, name, i);
  }

  /** A call on a name that is no share: the user's own collection, or nothing. */
  lemma OtherAnswers(sv: Services, user: string, name: string, action: Action)
    ensures !sv.collections ==> Call(sv, user, name, action) == Reply(None, NotFound)
    ensures sv.collections && sv.own.None? ==> Call(sv, user, name, action) == Reply(None, ListingFailed)
    ensures sv.collections && sv.own.Some? && (name in sv.own.value || user == "") ==>
              Call(sv, user, name, action) == Reply(Some(Target(user, name)), FromRun)
    ensures sv.collections && sv.own.Some? && name !in sv.own.value && user != ""
            && (sv.shares.None? || forall i | 0 <= i < |sv.shares.value| :: !Denotes(sv.shares.value, sv.own.value, name, i)) ==>
              Call(sv, user, name, action) == Reply(None, NotFound)
  {
    hide Sort, Denotes, AddressOf;
    if sv.collections && sv.own.Some? && name !in sv.own.value && user != "" && sv.shares.Some?
       && Resolve(Sort(ByAddress, Listed(sv.shares.value, sv.own.value)), sv.own.value, name).Some? {
      var i := ResolvedIsDenoted(sv.shares.value, sv.own.value, name);
    }
  }

  /**
   With working services a call on the address of a shared collection runs on that
   collection exactly when the role allows the action and the user has no collection of
   their own under the address.
   */
  lemma AddressRuns(sv: Services, user: string, i: nat, action: Action)
    requires Working(sv) && user != "" && i < |sv.shares.value| && sv.shares.value[i].owner != user
    ensures var refs, own := sv.shares.value, sv.own.value;
            var addr := Listed(refs, own)[i].address;
            && (Call(sv, user, addr, action).ran == Some(Target(refs[i].owner, refs[i].name)) <==>
                  addr !in own && RoleAllows(refs[i].role, action))
            && (addr in own ==> addr == Unambiguous(refs[i]))
  {
    hide Sort, Resolve, AddressOf, Unambiguous, Denotes;
    var refs, own := sv.shares.value, sv.own.value;
    var addr := Listed(refs, own)[i].address;
    PrefixedAddress(refs, own, refs[i]);
    if addr !in own {
      DenotesIsMatch(refs, own, addr, i);
      ShareAnswers(sv, user, addr, i, action);
    }
  }

  /**
   A collection of another account is run on only through a share of it: to write to it
   the share must be an editor's, to read or output from it an editor's or a viewer's,
   and no share runs anything else.
   */
  lemma RunsOnlyOnShares(sv: Services, user: string, name: string, action: Action) returns (i: nat)
    requires user != "" && Call(sv, user, name, action).ran.Some? && Call(sv, user, name, action).ran.value != Target(user, name)
    ensures sv.own.Some? && name !in sv.own.value && sv.shares.Some? && i < |sv.shares.value|
    ensures var r := sv.shares.value[i];
            && Denotes(sv.shares.value, sv.own.value, name, i)
            && Call(sv, user, name, action).ran == Some(Target(r.owner, r.name))
            && (action == Write ==> r.role == "editor")
            && (action == Read || action == Output ==> r.role == "viewer" || r.role == "editor")
            && action != Schema && action != Share && action != Delete
  {
    hide Sort, Denotes, AddressOf;
    i := ResolvedIsDenoted(sv.shares.value, sv.own.value, name);
  }

  /** A user with an own collection called "shared:1" cannot reach the share that has this address. */
  lemma ShareIsShadowed()
    ensures var share := Ref("1", "notes", "bob", "Bob", "viewer", false);
            var own := ["notes", "shared:1"];
            var sv := Services(true, Some(own), Some([share]), true, true, false);
            && Listed([share], own)[0].address == "shared:1"
            && Call(sv, "me", "shared:1", Read).ran == Some(Target("me", "shared:1"))
  {
    var share := Ref("1", "notes", "bob", "Bob", "viewer", false);
    var own := ["notes", "shared:1"];
    assert own[0] == "notes" && own[1] == "shared:1";
    assert "notes" in own && "shared:1" in own;
    assert Unambiguous(share) == "shared:1";
  }
}
