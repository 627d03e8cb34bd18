/**
 The gallery lists that a list of library sources gives: what was listed and is
 not switched off stays, and every live source is there.
 */
module GalleryReconcile {
  import opened Basics
  import opened Sorting

  datatype Kind = Addon | Backend | Model

  datatype Info = Info(
    kind: Kind, id: string, name: string, url: string, format: string,
    enabled: bool, isDefault: bool, removed: bool, suspended: bool, mirrors: seq<string>)

  datatype Gallery = Gallery(name: string, url: string, mirrors: seq<string>, library: bool)

  const FORMAT_GALLERY := "gallery"

  predicate ReadsAsGallery(kind: Kind, e: Info) {
    kind == Model || e.format == FORMAT_GALLERY || (kind == Backend && e.isDefault)
  }

  predicate IsLive(kind: Kind, e: Info) {
    e.kind == kind && e.enabled && !e.removed && !e.suspended && ReadsAsGallery(kind, e)
  }

  /** The last live entry with the address, as a map filled in order holds it. */
  function LiveFor(entries: seq<Info>, kind: Kind, url: string): Option<Info> {
    if entries == [] then None
    else
      var e := entries[|entries| - 1];
      if IsLive(kind, e) && e.url == url then Some(e) else LiveFor(entries[..|entries| - 1], kind, url)
  }

  predicate IsKnown(entries: seq<Info>, kind: Kind, url: string) {
    exists i | 0 <= i < |entries| :: entries[i].kind == kind && entries[i].url == url
  }

  predicate HasUrl(gs: seq<Gallery>, url: string) {
    exists i | 0 <= i < |gs| :: gs[i].url == url
  }

  /** A listed gallery takes the mirrors of its source when that has any. */
  function WithMirrors(g: Gallery, live: Option<Info>): Gallery {
    if live.Some? && live.value.mirrors != [] then g.(mirrors := live.value.mirrors) else g
  }

  function KeepListed(entries: seq<Info>, kind: Kind, current: seq<Gallery>): seq<Gallery> {
    if current == [] then []
    else
      var g := current[|current| - 1];
      var live := LiveFor(entries, kind, g.url);
      KeepListed(entries, kind, current[..|current| - 1])
      + if live.Some? || !IsKnown(entries, kind, g.url) then [WithMirrors(g, live)] else []
  }

  function AddEntry(entries: seq<Info>, kind: Kind, out: seq<Gallery>, e: Info): seq<Gallery> {
    if LiveFor(entries, kind, e.url).Some? && e.kind == kind && ReadsAsGallery(kind, e) && !HasUrl(out, e.url)
    then out + [Gallery(e.name, e.url, e.mirrors, e.format != FORMAT_GALLERY)]
    else out
  }

  function AddMissing(entries: seq<Info>, kind: Kind, out: seq<Gallery>, todo: seq<Info>): seq<Gallery> {
    if todo == [] then out
    else AddEntry(entries, kind, AddMissing(entries, kind, out, todo[..|todo| - 1]), todo[|todo| - 1])
  }

  function Reconcile(entries: seq<Info>, kind: Kind, current: seq<Gallery>): seq<Gallery> {
    AddMissing(entries, kind, KeepListed(entries, kind, current), entries)
  }

  /** The first loop: the addresses of live sources, and of all sources of the kind. */
  method IndexEntries(entries: seq<Info>, kind: Kind) returns (live: map<string, Info>, known: set<string>)
    ensures forall u :: u in known <==> IsKnown(entries, kind, u)
    ensures forall u :: LiveFor(entries, kind, u) == if u in live then Some(live[u]) else None
  {
    live, known := map[], {};
    var i := 0;
    while i < |entries|
      invariant i <= |entries|
      invariant forall u :: u in known <==> IsKnown(entries[..i], kind, u)
      invariant forall u :: LiveFor(entries[..i], kind, u) == if u in live then Some(live[u]) else None
    {
      var e := entries[i];
      assert entries[..i + 1][..i] == entries[..i];
      KnownStep(entries, kind, i);
      if e.kind == kind {
        known := known + {e.url};
      }
      if IsLive(kind, e) {
        live := live[e.url := e];
      }
      i := i + 1;
    }
    assert entries[..i] == entries;
  }

  /** The loops of the program over the current list and over the sources. */
  method ReconcileKind(entries: seq<Info>, kind: Kind, current: seq<Gallery>) returns (out: seq<Gallery>)
    ensures out == Reconcile(entries, kind, current)
  {
    hide LiveFor, IsKnown, HasUrl;
    var live, known := IndexEntries(entries, kind);
    out := [];
    var have: set<string> := {};
    NoUrls();
    var i := 0;
    while i < |current|
      invariant i <= |current|
      invariant out == KeepListed(entries, kind, current[..i])
      invariant forall u :: u in have <==> HasUrl(out, u)
    {
      var g := current[i];
      assert current[..i + 1][..i] == current[..i];
      if g.url in live || g.url !in known {
        if g.url in live && |live[g.url].mirrors| > 0 && live[g.url].mirrors != g.mirrors {
          g := g.(mirrors := live[g.url].mirrors);
        }
        HasUrlStep(out, g);
        out := out + [g];
        have := have + {g.url};
      }
      i := i + 1;
    }
    assert current[..i] == current;
    ghost var kept := out;
    i := 0;
    while i < |entries|
      invariant i <= |entries|
      invariant out == AddMissing(entries, kind, kept, entries[..i])
      invariant forall u :: u in have <==> HasUrl(out, u)
    {
      var e := entries[i];
      assert entries[..i + 1][..i] == entries[..i];
      if e.url in live && e.kind == kind && ReadsAsGallery(kind, e) && e.url !in have {
        HasUrlStep(out, Gallery(e.name, e.url, e.mirrors, e.format != FORMAT_GALLERY));
        out := out + [Gallery(e.name, e.url, e.mirrors, e.format != FORMAT_GALLERY)];
        have := have + {e.url};
      }
      i := i + 1;
    }
    assert entries[..i] == entries;
  }

  lemma NoUrls()
    ensures forall u :: !HasUrl([], u)
  {
  }

  lemma KnownStep(entries: seq<Info>, kind: Kind, i: nat)
    requires i < |entries|
    ensures forall u :: IsKnown(entries[..i + 1], kind, u) <==>
                        IsKnown(entries[..i], kind, u) || (entries[i].kind == kind && entries[i].url == u)
  {
    forall u ensures IsKnown(entries[..i + 1], kind, u) <==>
                     IsKnown(entries[..i], kind, u) || (entries[i].kind == kind && entries[i].url == u) {
      assert entries[..i + 1] == entries[..i] + [entries[i]];
      if entries[i].kind == kind && entries[i].url == u {
        assert entries[..i + 1][i].url == u;
      }
      if IsKnown(entries[..i], kind, u) {
        var k :| 0 <= k < i && entries[..i][k].kind == kind && entries[..i][k].url == u;
        assert entries[..i + 1][k].url == u;
      }
    }
  }

  lemma HasUrlStep(out: seq<Gallery>, g: Gallery)
    ensures forall u :: HasUrl(out + [g], u) <==> HasUrl(out, u) || g.url == u
  {
    forall u ensures HasUrl(out + [g], u) <==> HasUrl(out, u) || g.url == u {
      assert (out + [g])[|out|] == g;
      if HasUrl(out, u) {
        var k :| 0 <= k < |out| && out[k].url == u;
        assert (out + [g])[k].url == u;
      }
    }
  }

  // ---------- Which galleries result ----------

  lemma {:induction false} LiveIsKnown(entries: seq<Info>, kind: Kind, url: string) returns (k: nat)
    requires LiveFor(entries, kind, url).Some?
    ensures k < |entries| && entries[k] == LiveFor(entries, kind, url).value
    ensures IsLive(kind, entries[k]) && entries[k].url == url
  {
    var e := entries[|entries| - 1];
    if IsLive(kind, e) && e.url == url {
      k := |entries| - 1;
    } else {
      k := LiveIsKnown(entries[..|entries| - 1], kind, url);
    }
  }

  lemma {:induction false} KeptUrls(entries: seq<Info>, kind: Kind, current: seq<Gallery>, url: string)
    ensures HasUrl(KeepListed(entries, kind, current), url) <==>
            HasUrl(current, url) && (LiveFor(entries, kind, url).Some? || !IsKnown(entries, kind, url))
  {
    hide LiveFor, IsKnown;
    if current != [] {
      var front, g := current[..|current| - 1], current[|current| - 1];
      KeptUrls(entries, kind, front, url);
      HasUrlStep(front, g);
      assert current == front + [g];
      var kept := KeepListed(entries, kind, front);
      assert kept + [] == kept;
      HasUrlStep(KeepListed(entries, kind, front), WithMirrors(g, LiveFor(entries, kind, g.url)));
    }
  }

  lemma {:induction false} AddedUrls(entries: seq<Info>, kind: Kind, out: seq<Gallery>, todo: seq<Info>, url: string)
    ensures HasUrl(out, url) ==> HasUrl(AddMissing(entries, kind, out, todo), url)
    ensures HasUrl(AddMissing(entries, kind, out, todo), url) ==> HasUrl(out, url) || LiveFor(entries, kind, url).Some?
    ensures (exists k | 0 <= k < |todo| :: IsLive(kind, todo[k]) && todo[k].url == url) && LiveFor(entries, kind, url).Some?
            ==> HasUrl(AddMissing(entries, kind, out, todo), url)
  {
    hide LiveFor;
    if todo != [] {
      var front, e := todo[..|todo| - 1], todo[|todo| - 1];
      AddedUrls(entries, kind, out, front, url);
      var sofar := AddMissing(entries, kind, out, front);
      HasUrlStep(sofar, Gallery(e.name, e.url, e.mirrors, e.format != FORMAT_GALLERY));
      if (exists k | 0 <= k < |todo| :: IsLive(kind, todo[k]) && todo[k].url == url) && !(IsLive(kind, e) && e.url == url) {
        var k :| 0 <= k < |todo| && IsLive(kind, todo[k]) && todo[k].url == url;
        assert front[k] == todo[k];
      }
    }
  }

  /**
   The addresses of the result: those of the live sources, and those that were
   listed and belong to no source of the kind.
   */
  lemma ReconciledUrls(entries: seq<Info>, kind: Kind, current: seq<Gallery>, url: string)
    ensures HasUrl(Reconcile(entries, kind, current), url) <==>
            LiveFor(entries, kind, url).Some? || (HasUrl(current, url) && !IsKnown(entries, kind, url))
  {
    KeptUrls(entries, kind, current, url);
    AddedUrls(entries, kind, KeepListed(entries, kind, current), entries, url);
    if LiveFor(entries, kind, url).Some? {
      var k := LiveIsKnown(entries, kind, url);
    }
  }

  predicate DistinctUrls(gs: seq<Gallery>) {
    forall i, j | 0 <= i < j < |gs| :: gs[i].url != gs[j].url
  }

  /** No address is listed twice unless it was before, and what stays keeps its place in front. */
  lemma {:induction false} ReconciledOnce(entries: seq<Info>, kind: Kind, out: seq<Gallery>, todo: seq<Info>)
    ensures out <= AddMissing(entries, kind, out, todo)
    ensures DistinctUrls(out) ==> DistinctUrls(AddMissing(entries, kind, out, todo))
  {
    hide LiveFor;
    if todo != [] {
      ReconciledOnce(entries, kind, out, todo[..|todo| - 1]);
    }
  }

  /** Rebuilding from the base lists lets a deleted source go; rebuilding from the last lists would keep it. */
  lemma DeletedSourceLeaves(was: seq<Info>, now: seq<Info>, kind: Kind, base: seq<Gallery>, url: string)
    requires LiveFor(was, kind, url).Some? && !HasUrl(base, url) && !IsKnown(now, kind, url)
    ensures HasUrl(Reconcile(was, kind, base), url) && !HasUrl(Reconcile(now, kind, base), url)
    ensures HasUrl(Reconcile(now, kind, Reconcile(was, kind, base)), url)
  {
    ReconciledUrls(was, kind, base, url);
    ReconciledUrls(now, kind, base, url);
    ReconciledUrls(now, kind, Reconcile(was, kind, base), url);
    if LiveFor(now, kind, url).Some? {
      var k := LiveIsKnown(now, kind, url);
      assert IsKnown(now, kind, url);
    }
  }

  // ---------- What the version of a listing leaves out ----------

  /** A source as the version sees it: everything but the name. */
  function Unnamed(e: Info): Info {
    e.(name := "")
  }

  function Rows(entries: seq<Info>): seq<Info> {
    seq(|entries|, i requires 0 <= i < |entries| => Unnamed(entries[i]))
  }

  function WithoutNames(gs: seq<Gallery>): seq<Gallery> {
    seq(|gs|, i requires 0 <= i < |gs| => gs[i].(name := ""))
  }

  lemma {:induction false} LiveOfRows(entries: seq<Info>, kind: Kind, url: string)
    ensures var a, b := LiveFor(entries, kind, url), LiveFor(Rows(entries), kind, url);
            b == if a.Some? then Some(Unnamed(a.value)) else None
  {
    if entries != [] {
      var front := entries[..|entries| - 1];
      LiveOfRows(front, kind, url);
      assert Rows(entries)[..|entries| - 1] == Rows(front);
    }
  }

  lemma KnownOfRows(entries: seq<Info>, kind: Kind, url: string)
    ensures IsKnown(entries, kind, url) <==> IsKnown(Rows(entries), kind, url)
  {
    if IsKnown(entries, kind, url) {
      var i :| 0 <= i < |entries| && entries[i].kind == kind && entries[i].url == url;
      assert Rows(entries)[i].url == url;
    }
  }

  lemma {:induction false} KeepOfRows(entries: seq<Info>, kind: Kind, current: seq<Gallery>)
    ensures KeepListed(entries, kind, current) == KeepListed(Rows(entries), kind, current)
  {
    hide LiveFor, IsKnown, Rows;
    if current != [] {
      var front, g := current[..|current| - 1], current[|current| - 1];
      KeepOfRows(entries, kind, front);
      LiveOfRows(entries, kind, g.url);
      KnownOfRows(entries, kind, g.url);
    }
  }

  lemma SameUrls(gs: seq<Gallery>, url: string)
    ensures HasUrl(gs, url) <==> HasUrl(WithoutNames(gs), url)
  {
    if HasUrl(gs, url) {
      var i :| 0 <= i < |gs| && gs[i].url == url;
      assert WithoutNames(gs)[i].url == url;
    }
  }

  lemma {:induction false} AddOfRows(entries: seq<Info>, kind: Kind, out: seq<Gallery>, todo: seq<Info>)
    ensures WithoutNames(AddMissing(entries, kind, out, todo)) ==
            WithoutNames(AddMissing(Rows(entries), kind, out, Rows(todo)))
  {
    hide LiveFor, HasUrl;
    if todo != [] {
      var front, e := todo[..|todo| - 1], todo[|todo| - 1];
      AddOfRows(entries, kind, out, front);
      assert Rows(todo)[..|todo| - 1] == Rows(front);
      var a := AddMissing(entries, kind, out, front);
      var b := AddMissing(Rows(entries), kind, out, Rows(front));
      SameUrls(a, e.url);
      SameUrls(b, e.url);
      LiveOfRows(entries, kind, e.url);
      AppendWithoutName(a, Gallery(e.name, e.url, e.mirrors, e.format != FORMAT_GALLERY));
      AppendWithoutName(b, Gallery("", e.url, e.mirrors, e.format != FORMAT_GALLERY));
    }
  }

  lemma AppendWithoutName(gs: seq<Gallery>, g: Gallery)
    ensures WithoutNames(gs + [g]) == WithoutNames(gs) + [g.(name := "")]
  {
  }

  /** Two listings of one version give the same galleries, but for the names. */
  lemma SameRowsSameGalleries(a: seq<Info>, b: seq<Info>, kind: Kind, current: seq<Gallery>)
    requires Rows(a) == Rows(b)
    ensures WithoutNames(Reconcile(a, kind, current)) == WithoutNames(Reconcile(b, kind, current))
  {
    KeepOfRows(a, kind, current);
    KeepOfRows(b, kind, current);
    var kept := KeepListed(a, kind, current);
    AddOfRows(a, kind, kept, a);
    AddOfRows(b, kind, kept, b);
  }

  // ---------- Names ----------

  /** The first source of the kind with the address that reads as a gallery: an appended gallery is named after it. */
  function FirstReadable(entries: seq<Info>, kind: Kind, url: string): Option<Info> {
    if entries == [] then None
    else
      var first, e := FirstReadable(entries[..|entries| - 1], kind, url), entries[|entries| - 1];
      if first.None? && e.kind == kind && ReadsAsGallery(kind, e) && e.url == url then Some(e) else first
  }

  lemma {:induction false} ReadableIsAdded(entries: seq<Info>, kind: Kind, out: seq<Gallery>, todo: seq<Info>, url: string)
    requires LiveFor(entries, kind, url).Some? && FirstReadable(todo, kind, url).Some?
    ensures HasUrl(AddMissing(entries, kind, out, todo), url)
  {
    hide LiveFor;
    var front, e := todo[..|todo| - 1], todo[|todo| - 1];
    var sofar := AddMissing(entries, kind, out, front);
    HasUrlStep(sofar, Gallery(e.name, e.url, e.mirrors, e.format != FORMAT_GALLERY));
    if FirstReadable(front, kind, url).Some? {
      ReadableIsAdded(entries, kind, out, front, url);
    }
  }

  /** A gallery behind the kept ones is that of a live address not kept, under the name of its first readable source. */
  lemma {:induction false} AddedName(entries: seq<Info>, kind: Kind, out: seq<Gallery>, todo: seq<Info>, k: nat)
    requires |out| <= k < |AddMissing(entries, kind, out, todo)|
    ensures var g := AddMissing(entries, kind, out, todo)[k];
            var first := FirstReadable(todo, kind, g.url);
            first.Some? && g.name == first.value.name && LiveFor(entries, kind, g.url).Some? && !HasUrl(out, g.url)
  {
    hide LiveFor, HasUrl;
    var front, e := todo[..|todo| - 1], todo[|todo| - 1];
    var sofar := AddMissing(entries, kind, out, front);
    if k < |sofar| {
      AddedName(entries, kind, out, front, k);
    } else {
      AddedUrls(entries, kind, out, front, e.url);
      if FirstReadable(front, kind, e.url).Some? {
        ReadableIsAdded(entries, kind, out, front, e.url);
      }
    }
  }

  lemma {:induction false} LiveIsReadable(entries: seq<Info>, kind: Kind, url: string)
    requires LiveFor(entries, kind, url).Some?
    ensures FirstReadable(entries, kind, url).Some?
  {
    var front, e := entries[..|entries| - 1], entries[|entries| - 1];
    if !(IsLive(kind, e) && e.url == url) {
      LiveIsReadable(front, kind, url);
    }
  }

  /** The two lists name alike every live address that is not listed yet. */
  ghost predicate SameNames(a: seq<Info>, b: seq<Info>, kind: Kind, current: seq<Gallery>) {
    forall url | LiveFor(a, kind, url).Some? && !HasUrl(current, url) ::
      var x, y := FirstReadable(a, kind, url), FirstReadable(b, kind, url);
      x.Some? && y.Some? && x.value.name == y.value.name
  }

  /** Two listings of one version give the same galleries if and only if the appended ones are named alike. */
  lemma SameGalleriesIffSameNames(a: seq<Info>, b: seq<Info>, kind: Kind, current: seq<Gallery>)
    requires Rows(a) == Rows(b)
    ensures Reconcile(a, kind, current) == Reconcile(b, kind, current) <==> SameNames(a, b, kind, current)
  {
    hide LiveFor, HasUrl, Rows, AddMissing, KeepListed, FirstReadable, WithoutNames;
    var x, y := Reconcile(a, kind, current), Reconcile(b, kind, current);
    SameRowsSameGalleries(a, b, kind, current);
    if SameNames(a, b, kind, current) {
      forall k | 0 <= k < |x| ensures |x| == |y| && x[k] == y[k] {
        NamedAlike(a, b, kind, current, k);
      }
      SameLength(x, y);
    }
    if x == y {
      forall url | LiveFor(a, kind, url).Some? && !HasUrl(current, url)
        ensures var x, y := FirstReadable(a, kind, url), FirstReadable(b, kind, url);
                x.Some? && y.Some? && x.value.name == y.value.name
      {
        AppendedUnder(a, b, kind, current, url);
      }
    }
  }

  lemma SameLength(x: seq<Gallery>, y: seq<Gallery>)
    requires WithoutNames(x) == WithoutNames(y)
    ensures |x| == |y|
    ensures forall k | 0 <= k < |x| :: x[k].(name := "") == y[k].(name := "")
  {
    assert |WithoutNames(x)| == |x| && |WithoutNames(y)| == |y|;
    forall k | 0 <= k < |x| ensures x[k].(name := "") == y[k].(name := "") {
      assert WithoutNames(x)[k] == WithoutNames(y)[k];
    }
  }

  lemma NamedAlike(a: seq<Info>, b: seq<Info>, kind: Kind, current: seq<Gallery>, k: nat)
    requires Rows(a) == Rows(b) && SameNames(a, b, kind, current) && k < |Reconcile(a, kind, current)|
    ensures |Reconcile(a, kind, current)| == |Reconcile(b, kind, current)|
    ensures Reconcile(a, kind, current)[k] == Reconcile(b, kind, current)[k]
  {
    hide LiveFor, HasUrl, Rows, AddMissing, KeepListed, FirstReadable, WithoutNames;
    var x, y, kept := Reconcile(a, kind, current), Reconcile(b, kind, current), KeepListed(a, kind, current);
    SameRowsSameGalleries(a, b, kind, current);
    SameLength(x, y);
    KeepOfRows(a, kind, current);
    KeepOfRows(b, kind, current);
    ReconciledOnce(a, kind, kept, a);
    ReconciledOnce(b, kind, kept, b);
    if k >= |kept| {
      AddedName(a, kind, kept, a, k);
      AddedName(b, kind, kept, b, k);
      KeptUrls(a, kind, current, x[k].url);
    }
  }

  lemma AppendedUnder(a: seq<Info>, b: seq<Info>, kind: Kind, current: seq<Gallery>, url: string)
    requires Rows(a) == Rows(b) && Reconcile(a, kind, current) == Reconcile(b, kind, current)
    requires LiveFor(a, kind, url).Some? && !HasUrl(current, url)
    ensures var x, y := FirstReadable(a, kind, url), FirstReadable(b, kind, url);
            x.Some? && y.Some? && x.value.name == y.value.name
  {
    hide LiveFor, Rows, AddMissing, KeepListed, FirstReadable;
    var x, kept := Reconcile(a, kind, current), KeepListed(a, kind, current);
    KeepOfRows(a, kind, current);
    KeepOfRows(b, kind, current);
    ReconciledUrls(a, kind, current, url);
    KeptUrls(a, kind, current, url);
    ReconciledOnce(a, kind, kept, a);
    var k :| 0 <= k < |x| && x[k].url == url;
    assert forall j | 0 <= j < |kept| :: kept[j] == x[j];
    AddedName(a, kind, kept, a, k);
    AddedName(b, kind, kept, b, k);
  }

  // ---------- The galleries by the fields of their sources ----------

  /** A source of the kind with the address, in a format that this kind of list can read. */
  predicate Readable(e: Info, kind: Kind, url: string) {
    e.kind == kind && e.url == url && (kind == Model || e.format == "gallery" || (kind == Backend && e.isDefault))
  }

  /** Such a source that is switched on, and neither removed nor suspended. */
  predicate Offers(e: Info, kind: Kind, url: string) {
    Readable(e, kind, url) && e.enabled && !e.removed && !e.suspended
  }

  lemma {:induction false} LiveForIsLastOffer(entries: seq<Info>, kind: Kind, url: string)
    ensures LiveFor(entries, kind, url).Some? <==> exists i | 0 <= i < |entries| :: Offers(entries[i], kind, url)
    ensures forall i | 0 <= i < |entries| && Offers(entries[i], kind, url)
                       && (forall j | i < j < |entries| :: !Offers(entries[j], kind, url)) ::
              LiveFor(entries, kind, url) == Some(entries[i])
  {
    if entries != [] {
      var front := entries[..|entries| - 1];
      LiveForIsLastOffer(front, kind, url);
      assert forall i | 0 <= i < |front| :: front[i] == entries[i];
      assert Offers(entries[|entries| - 1], kind, url) <==> IsLive(kind, entries[|entries| - 1]) && entries[|entries| - 1].url == url;
      hide Offers, IsLive;
    }
  }

  /**
   Which addresses are listed, by the fields of the sources alone: those of a source of
   the kind that is switched on, neither removed nor suspended, and in a readable format;
   and those that were listed and are of no source of the kind at all.
   */
  lemma ListedIff(entries: seq<Info>, kind: Kind, current: seq<Gallery>, url: string)
    ensures var out := Reconcile(entries, kind, current);
            (exists k | 0 <= k < |out| :: out[k].url == url) <==>
            || (exists i | 0 <= i < |entries| ::
                  && entries[i].kind == kind && entries[i].url == url
                  && entries[i].enabled && !entries[i].removed && !entries[i].suspended
                  && (kind == Model || entries[i].format == "gallery" || (kind == Backend && entries[i].isDefault)))
            || ((exists k | 0 <= k < |current| :: current[k].url == url)
                && forall i | 0 <= i < |entries| :: entries[i].kind != kind || entries[i].url != url)
  {
    hide Reconcile, LiveFor;
    ReconciledUrls(entries, kind, current, url);
    LiveForIsLastOffer(entries, kind, url);
    if LiveFor(entries, kind, url).Some? {
      var i :| 0 <= i < |entries| && Offers(entries[i], kind, url);
      assert entries[i].url == url;
    }
  }

  /** The listed galleries that stay, in their order. */
  function Staying(entries: seq<Info>, kind: Kind, current: seq<Gallery>): seq<Gallery> {
    Filter((g: Gallery) => (exists i | 0 <= i < |entries| :: Offers(entries[i], kind, g.url))
                           || forall i | 0 <= i < |entries| :: entries[i].kind != kind || entries[i].url != g.url, current)
  }

  /** A gallery that stays is as it was, but for the mirrors of the last source that offers it, if that lists any. */
  ghost predicate StaysAs(entries: seq<Info>, kind: Kind, g: Gallery, was: Gallery) {
    && g == was.(mirrors := g.mirrors)
    && ((forall i | 0 <= i < |entries| :: !Offers(entries[i], kind, was.url)) ==> g.mirrors == was.mirrors)
    && forall i | 0 <= i < |entries| && Offers(entries[i], kind, was.url)
                  && (forall j | i < j < |entries| :: !Offers(entries[j], kind, was.url)) ::
         g.mirrors == if entries[i].mirrors == [] then was.mirrors else entries[i].mirrors
  }

  lemma {:induction false} KeptStayAs(entries: seq<Info>, kind: Kind, current: seq<Gallery>)
    ensures var kept, was := KeepListed(entries, kind, current), Staying(entries, kind, current);
            |kept| == |was| && forall k | 0 <= k < |kept| :: StaysAs(entries, kind, kept[k], was[k])
  {
    if current != [] {
      var front, g := current[..|current| - 1], current[|current| - 1];
      KeptStayAs(entries, kind, front);
      LiveForIsLastOffer(entries, kind, g.url);
      hide LiveFor, Offers;
    }
  }

  /** A gallery behind those that stay is that of the first readable source of its address. */
  ghost predicate IsAppended(entries: seq<Info>, kind: Kind, g: Gallery, i: nat)
    requires i < |entries|
  {
    && Readable(entries[i], kind, g.url) && (forall j | 0 <= j < i :: !Readable(entries[j], kind, g.url))
    && g == Gallery(entries[i].name, entries[i].url, entries[i].mirrors, entries[i].format != "gallery")
  }

  lemma {:induction false} AddedIsFirst(entries: seq<Info>, kind: Kind, out: seq<Gallery>, n: nat, k: nat) returns (i: nat)
    requires n <= |entries| && |out| <= k < |AddMissing(entries, kind, out, entries[..n])|
    ensures i < n && IsAppended(entries, kind, AddMissing(entries, kind, out, entries[..n])[k], i)
  {
    var e := entries[n - 1];
    assert entries[..n][..n - 1] == entries[..n - 1];
    var sofar := AddMissing(entries, kind, out, entries[..n - 1]);
    hide LiveFor, HasUrl;
    if k < |sofar| {
      i := AddedIsFirst(entries, kind, out, n - 1, k);
    } else {
      i := n - 1;
      forall j | 0 <= j < i ensures !Readable(entries[j], kind, e.url) {
        if Readable(entries[j], kind, e.url) {
          assert entries[..n - 1][j] == entries[j];
          FirstIsThere(entries[..n - 1], kind, e.url, j);
          ReadableIsAdded(entries, kind, out, entries[..n - 1], e.url);
        }
      }
    }
  }

  lemma {:induction false} FirstIsThere(entries: seq<Info>, kind: Kind, url: string, j: nat)
    requires j < |entries| && Readable(entries[j], kind, url)
    ensures FirstReadable(entries, kind, url).Some?
  {
    if j < |entries| - 1 {
      FirstIsThere(entries[..|entries| - 1], kind, url, j);
    }
  }

  /**
   The whole result, field by field: first the galleries that stay, in their order and as
   they were but for the mirrors of their source; then one for each offered address that
   is not among them, with the name, mirrors and kind of its first readable source.
   */
  lemma GalleriesAre(entries: seq<Info>, kind: Kind, current: seq<Gallery>, k: nat)
    requires k < |Reconcile(entries, kind, current)|
    ensures var out, was := Reconcile(entries, kind, current), Staying(entries, kind, current);
            && |was| <= |out|
            && (k < |was| ==> StaysAs(entries, kind, out[k], was[k]))
            && (k >= |was| ==>
                  && (exists i: nat :: i < |entries| && IsAppended(entries, kind, out[k], i))
                  && (exists i | 0 <= i < |entries| :: Offers(entries[i], kind, out[k].url))
                  && forall j | 0 <= j < k :: out[j].url != out[k].url)
  {
    hide LiveFor, Offers, Readable, IsAppended, Staying, StaysAs;
    var out, kept := Reconcile(entries, kind, current), KeepListed(entries, kind, current);
    KeptStayAs(entries, kind, current);
    ReconciledOnce(entries, kind, kept, entries);
    assert forall j | 0 <= j < |kept| :: kept[j] == out[j];
    if k >= |kept| {
      assert entries[..|entries|] == entries;
      var i := AddedIsFirst(entries, kind, kept, |entries|, k);
      AddedName(entries, kind, kept, entries, k);
      LiveForIsLastOffer(entries, kind, out[k].url);
      AppendedOnce(entries, kind, kept, entries, k);
    }
  }

  lemma {:induction false} AppendedOnce(entries: seq<Info>, kind: Kind, out: seq<Gallery>, todo: seq<Info>, k: nat)
    requires |out| <= k < |AddMissing(entries, kind, out, todo)|
    ensures var all := AddMissing(entries, kind, out, todo); forall j | 0 <= j < k :: all[j].url != all[k].url
  {
    hide LiveFor;
    var front := todo[..|todo| - 1];
    if k < |AddMissing(entries, kind, out, front)| {
      AppendedOnce(entries, kind, out, front, k);
    }
  }
}
