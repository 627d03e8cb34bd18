/**
 Turning a backend's diarization answer into the result the server returns: raw
 speaker labels become numbered identifiers in the order they are first seen, with
 totals per speaker.
 */
module Diarization {
  import opened Basics
  import opened Sorting
  import opened Text

  datatype Segment = Segment(start: real, end: real, speaker: string, text: string, name: string, nameScore: real)

  datatype Sound = Sound(start: real, end: real, tag: string, confidence: real)

  datatype Response = Response(
    duration: real, language: string, segments: seq<Option<Segment>>,
    soundsIncluded: bool, sounds: seq<Option<Sound>>, numSpeakers: int)

  datatype OutSegment = OutSegment(
    id: nat, speaker: string, tag: string, start: real, end: real, text: string, name: string, nameScore: real)

  datatype Tally = Tally(segments: nat, duration: real)

  datatype Speaker = Speaker(id: string, tag: string, name: string, tally: Tally)

  datatype Result = Result(
    task: string, duration: real, language: string, segments: seq<OutSegment>,
    sounds: Option<seq<Sound>>, numSpeakers: int, speakers: seq<Speaker>)

  function RawLabel(s: Segment): string {
    if s.speaker == "" then "0" else s.speaker
  }

  /** A number with at least two digits. */
  function TwoDigits(i: nat): string {
    if i < 10 then "0" + Dec(i) else Dec(i)
  }

  function SpeakerId(i: nat): string {
    "SPEAKER_" + TwoDigits(i)
  }

  /** The distinct raw labels in the order they are first seen. */
  function Order(segs: seq<Option<Segment>>): seq<string> {
    if segs == [] then []
    else
      var last, order := segs[|segs| - 1], Order(segs[..|segs| - 1]);
      if last.None? || RawLabel(last.value) in order then order else order + [RawLabel(last.value)]
  }

  function IndexOf(order: seq<string>, tag: string): (i: nat)
    requires tag in order
    ensures i < |order| && order[i] == tag
  {
    if order[0] == tag then 0 else 1 + IndexOf(order[1..], tag)
  }

  function Positive(s: Segment): real {
    if s.end - s.start > 0.0 then s.end - s.start else 0.0
  }

  function Add(t: Tally, s: Segment): Tally {
    Tally(t.segments + 1, t.duration + Positive(s))
  }

  /** What the segments with a label add up to. */
  function TallyOf(segs: seq<Option<Segment>>, tag: string): Tally {
    if segs == [] then Tally(0, 0.0)
    else
      var last, t := segs[|segs| - 1], TallyOf(segs[..|segs| - 1], tag);
      if last.Some? && RawLabel(last.value) == tag then Add(t, last.value) else t
  }

  /** What all segments add up to. */
  function Total(segs: seq<Option<Segment>>): Tally {
    if segs == [] then Tally(0, 0.0)
    else
      var last, t := segs[|segs| - 1], Total(segs[..|segs| - 1]);
      if last.Some? then Add(t, last.value) else t
  }

  /** The first name that a segment with the label carries. */
  function NameOf(segs: seq<Option<Segment>>, tag: string): string {
    if segs == [] then ""
    else
      var last, name := segs[|segs| - 1], NameOf(segs[..|segs| - 1], tag);
      if last.Some? && RawLabel(last.value) == tag && name == "" then last.value.name else name
  }

  /** The segments in the answer: a missing one is left out and keeps its number. */
  function Emitted(segs: seq<Option<Segment>>): seq<OutSegment> {
    if segs == [] then []
    else
      var k := |segs| - 1;
      var last := segs[k];
      if last.None? then Emitted(segs[..k])
      else
        var s, raw := last.value, RawLabel(last.value);
        var id := if raw in Order(segs) then SpeakerId(IndexOf(Order(segs), raw)) else "";
        Emitted(segs[..k]) + [OutSegment(k, id, raw, s.start, s.end, s.text, s.name, s.nameScore)]
  }

  function Present(sounds: seq<Option<Sound>>): seq<Sound> {
    if sounds == [] then []
    else
      var last := sounds[|sounds| - 1];
      Present(sounds[..|sounds| - 1]) + if last.Some? then [last.value] else []
  }

  function SpeakerAt(segs: seq<Option<Segment>>, i: nat): Speaker
    requires i < |Order(segs)|
  {
    var tag := Order(segs)[i];
    Speaker(SpeakerId(i), tag, NameOf(segs, tag), TallyOf(segs, tag))
  }

  /** The speakers in first-seen order. */
  function FirstSeen(segs: seq<Option<Segment>>): seq<Speaker> {
    seq(|Order(segs)|, i requires 0 <= i < |Order(segs)| => SpeakerAt(segs, i))
  }

  function ById(s: Speaker): string {
    s.id
  }

  // ---------- The loops ----------

  datatype Stats = Stats(idx: nat, tally: Tally, name: string)

  ghost predicate Tracks(stats: map<string, Stats>, order: seq<string>, segs: seq<Option<Segment>>) {
    && (forall raw :: raw in stats <==> raw in order)
    && forall raw | raw in order :: stats[raw] == Stats(IndexOf(order, raw), TallyOf(segs, raw), NameOf(segs, raw))
  }

  lemma {:induction false} IndexAppend(order: seq<string>, raw: string, tag: string)
    requires tag in order + [raw]
    ensures IndexOf(order + [raw], tag) == if tag in order then IndexOf(order, tag) else |order|
  {
    if order == [] {
      assert order + [raw] == [raw];
    } else if order[0] != tag {
      assert (order + [raw])[1..] == order[1..] + [raw];
      assert order == [order[0]] + order[1..];
      IndexAppend(order[1..], raw, tag);
    }
  }

  lemma {:induction false} NotSeen(segs: seq<Option<Segment>>, tag: string)
    requires tag !in Order(segs)
    ensures TallyOf(segs, tag) == Tally(0, 0.0) && NameOf(segs, tag) == ""
  {
    if segs != [] {
      NotSeen(segs[..|segs| - 1], tag);
    }
  }

  /** One turn of the loop over the statistics. */
  lemma TrackStep(stats: map<string, Stats>, order: seq<string>, segs: seq<Option<Segment>>, s: Segment,
                  seen: map<string, Stats>, order': seq<string>)
    requires Tracks(stats, order, segs) && order == Order(segs)
    requires var raw := RawLabel(s);
             if raw in stats then seen == stats && order' == order
             else seen == stats[raw := Stats(|order|, Tally(0, 0.0), "")] && order' == order + [raw]
    ensures var raw, all := RawLabel(s), segs + [Some(s)];
            && order' == Order(all) && raw in seen && raw in order' && seen[raw].idx == IndexOf(order', raw)
            && var st := seen[raw];
               Tracks(seen[raw := Stats(st.idx, Add(st.tally, s), if st.name == "" then s.name else st.name)], order', all)
  {
    var raw, all := RawLabel(s), segs + [Some(s)];
    assert all[..|segs|] == segs;
    if raw !in order {
      NotSeen(segs, raw);
      IndexAppend(order, raw, raw);
    }
    forall tag | tag in order && raw !in order ensures IndexOf(order', tag) == IndexOf(order, tag) {
      IndexAppend(order, raw, tag);
    }
  }

  method CollectSegments(segs: seq<Option<Segment>>)
    returns (out: seq<OutSegment>, stats: map<string, Stats>, order: seq<string>)
    ensures out == Emitted(segs) && order == Order(segs) && Tracks(stats, order, segs)
  {
    hide Tracks, IndexOf, TallyOf, NameOf, SpeakerId;
    out, stats, order := [], map[], [];
    TracksNothing();
    var i := 0;
    while i < |segs|
      invariant i <= |segs|
      invariant out == Emitted(segs[..i]) && order == Order(segs[..i]) && Tracks(stats, order, segs[..i])
    {
      assert segs[..i + 1][..i] == segs[..i] && segs[..i + 1] == segs[..i] + [segs[i]];
      if segs[i].Some? {
        var s := segs[i].value;
        var raw := RawLabel(s);
        ghost var stats0, order0 := stats, order;
        if raw !in stats {
          stats := stats[raw := Stats(|order|, Tally(0, 0.0), "")];
          order := order + [raw];
        }
        TrackStep(stats0, order0, segs[..i], s, stats, order);
        var st := stats[raw];
        stats := stats[raw := Stats(st.idx, Add(st.tally, s), if st.name == "" then s.name else st.name)];
        out := out + [OutSegment(i, SpeakerId(st.idx), raw, s.start, s.end, s.text, s.name, s.nameScore)];
      } else {
        TracksMissing(stats, order, segs[..i]);
      }
      i := i + 1;
    }
    assert segs[..i] == segs;
  }

  lemma TracksNothing()
    ensures Tracks(map[], [], [])
  {
  }

  lemma TracksMissing(stats: map<string, Stats>, order: seq<string>, segs: seq<Option<Segment>>)
    requires Tracks(stats, order, segs)
    ensures Tracks(stats, order, segs + [None]) && Order(segs + [None]) == Order(segs)
  {
    assert (segs + [None])[..|segs|] == segs;
  }

  method CollectSounds(sounds: seq<Option<Sound>>) returns (out: seq<Sound>)
    ensures out == Present(sounds)
  {
    out := [];
    var i := 0;
    while i < |sounds|
      invariant i <= |sounds| && out == Present(sounds[..i])
    {
      assert sounds[..i + 1][..i] == sounds[..i];
      if sounds[i].Some? {
        out := out + [sounds[i].value];
      }
      i := i + 1;
    }
    assert sounds[..i] == sounds;
  }

  /** The whole conversion; a missing answer gives an empty result without a task. */
  method FromResponse(r: Option<Response>) returns (out: Result)
    ensures r.None? ==> out == Result("", 0.0, "", [], None, 0, [])
    ensures r.Some? ==>
              && out.task == "diarize" && out.duration == r.value.duration && out.language == r.value.language
              && out.segments == Emitted(r.value.segments)
              && out.sounds == (if r.value.soundsIncluded then Some(Present(r.value.sounds)) else None)
              && out.speakers == Sort(ById, FirstSeen(r.value.segments))
              && out.numSpeakers == (var n := |Order(r.value.segments)|; if n == 0 && r.value.numSpeakers > 0 then r.value.numSpeakers else n)
  {
    hide Emitted, Order, Present, Sort, IndexOf, TallyOf, NameOf, SpeakerId;
    if r.None? {
      return Result("", 0.0, "", [], None, 0, []);
    }
    var segs := r.value.segments;
    var segments, stats, order := CollectSegments(segs);
    var sounds := None;
    if r.value.soundsIncluded {
      var present := CollectSounds(r.value.sounds);
      sounds := Some(present);
    }
    var numSpeakers: int := |order|;
    if numSpeakers == 0 && r.value.numSpeakers > 0 {
      numSpeakers := r.value.numSpeakers;
    }
    var speakers := [];
    var i := 0;
    while i < |order|
      invariant i <= |order| && speakers == FirstSeen(segs)[..i]
    {
      IndexInOrder(segs, i);
      var st := stats[order[i]];
      speakers := speakers + [Speaker(SpeakerId(st.idx), order[i], st.name, st.tally)];
      i := i + 1;
    }
    assert speakers == FirstSeen(segs);
    return Result("diarize", r.value.duration, r.value.language, segments, sounds, numSpeakers, Sort(ById, speakers));
  }

  // ---------- Numbering ----------

  predicate Distinct(order: seq<string>) {
    forall i, j | 0 <= i < j < |order| :: order[i] != order[j]
  }

  lemma {:induction false} OrderDistinct(segs: seq<Option<Segment>>)
    ensures Distinct(Order(segs))
  {
    if segs != [] {
      OrderDistinct(segs[..|segs| - 1]);
    }
  }

  lemma IndexInOrder(segs: seq<Option<Segment>>, i: nat)
    requires i < |Order(segs)|
    ensures IndexOf(Order(segs), Order(segs)[i]) == i
  {
    OrderDistinct(segs);
  }

  lemma {:induction false} OrderGrows(segs: seq<Option<Segment>>, k: nat)
    requires k <= |segs|
    ensures Order(segs[..k]) <= Order(segs)
  {
    if k == |segs| {
      assert segs[..k] == segs;
    } else {
      assert segs[..|segs| - 1][..k] == segs[..k];
      OrderGrows(segs[..|segs| - 1], k);
    }
  }

  /** The listed labels are exactly those of the segments. */
  lemma {:induction false} OrderCovers(segs: seq<Option<Segment>>, tag: string)
    ensures tag in Order(segs) <==> exists k | 0 <= k < |segs| :: segs[k].Some? && RawLabel(segs[k].value) == tag
  {
    if segs != [] {
      var front, last := segs[..|segs| - 1], segs[|segs| - 1];
      OrderCovers(front, tag);
      assert segs == front + [last];
      if tag in Order(front) {
        var k :| 0 <= k < |front| && front[k].Some? && RawLabel(front[k].value) == tag;
        assert segs[k] == front[k];
      }
    }
  }

  /** Somewhere in between exactly m labels have been seen. */
  lemma {:induction false} SeenSoFar(segs: seq<Option<Segment>>, m: nat) returns (k: nat)
    requires m <= |Order(segs)|
    ensures k <= |segs| && |Order(segs[..k])| == m
  {
    if m == |Order(segs)| {
      k := |segs|;
      assert segs[..k] == segs;
    } else {
      var n := |segs| - 1;
      k := SeenSoFar(segs[..n], m);
      assert segs[..n][..k] == segs[..k];
    }
  }

  /** A label is listed before another exactly when at some point the one has been seen and the other has not. */
  lemma ListedBefore(segs: seq<Option<Segment>>, i: nat, j: nat)
    requires i < |Order(segs)| && j < |Order(segs)|
    ensures i < j <==> exists k | 0 <= k <= |segs| :: Order(segs)[i] in Order(segs[..k]) && Order(segs)[j] !in Order(segs[..k])
  {
    hide Order;
    var order := Order(segs);
    if i < j {
      var k := SeenBetween(segs, i, j);
    }
    if k :| 0 <= k <= |segs| && order[i] in Order(segs[..k]) && order[j] !in Order(segs[..k]) {
      if j < i {
        FirstSeenOrder(segs, k, j, i);
      }
    }
  }

  /** Of two labels the first one listed has at some point been seen alone. */
  lemma SeenBetween(segs: seq<Option<Segment>>, i: nat, j: nat) returns (k: nat)
    requires i < j < |Order(segs)|
    ensures k <= |segs| && Order(segs)[i] in Order(segs[..k]) && Order(segs)[j] !in Order(segs[..k])
  {
    hide Order;
    OrderDistinct(segs);
    k := SeenSoFar(segs, i + 1);
    OrderGrows(segs, k);
    var order, front := Order(segs), Order(segs[..k]);
    assert front[i] == order[i];
    assert forall m | 0 <= m < |front| :: front[m] == order[m] != order[j];
  }

  /** When a label has been seen, so have all that are listed before it. */
  lemma FirstSeenOrder(segs: seq<Option<Segment>>, k: nat, i: nat, j: nat)
    requires k <= |segs| && i < j < |Order(segs)| && Order(segs)[j] in Order(segs[..k])
    ensures Order(segs)[i] in Order(segs[..k])
  {
    OrderGrows(segs, k);
    OrderDistinct(segs);
    var order, front := Order(segs), Order(segs[..k]);
    var m := IndexOf(front, order[j]);
    assert order[m] == order[j];
    assert front[i] == order[i];
  }

  lemma TwoDigitsValue(i: nat)
    ensures AllDigits(TwoDigits(i)) && Value(TwoDigits(i)) == i
  {
    ValueOfDec(i);
    if i < 10 {
      var s := TwoDigits(i);
      assert Dec(i) == [DigitChar(i)];
      assert s == ['0', DigitChar(i)] && s[..1] == ['0'] && s[..1][..0] == [];
    }
  }

  lemma SpeakerIdInjective(i: nat, j: nat)
    requires SpeakerId(i) == SpeakerId(j)
    ensures i == j
  {
    var p := "SPEAKER_";
    assert TwoDigits(i) == SpeakerId(i)[|p|..] && TwoDigits(j) == SpeakerId(j)[|p|..];
    TwoDigitsValue(i);
    TwoDigitsValue(j);
  }

  /** The emitted segment says what the source segment said. */
  predicate Carries(e: OutSegment, s: Segment) {
    && e.tag == (if s.speaker == "" then "0" else s.speaker) && e.start == s.start && e.end == s.end
    && e.text == s.text && e.name == s.name && e.nameScore == s.nameScore
  }

  /** The sounds are those present, each once and in order: `at` are their places in the answer. */
  ghost predicate SoundsAt(sounds: seq<Option<Sound>>, kept: seq<Sound>, at: seq<nat>) {
    && |at| == |kept|
    && (forall k | 0 <= k < |at| :: at[k] < |sounds| && sounds[at[k]] == Some(kept[k]))
    && (forall j, k | 0 <= j < k < |at| :: at[j] < at[k])
    && forall n | 0 <= n < |sounds| :: Occurs(at, n) <==> sounds[n].Some?
  }

  lemma MoreSounds(sounds: seq<Option<Sound>>, kept: seq<Sound>, at: seq<nat>, s: Option<Sound>)
    requires SoundsAt(sounds, kept, at)
    ensures if s.Some? then SoundsAt(sounds + [s], kept + [s.value], at + [|sounds|]) else SoundsAt(sounds + [s], kept, at)
  {
    forall n: nat ensures Occurs(at + [|sounds|], n) <==> Occurs(at, n) || n == |sounds| {
      OccursAppend(at, |sounds|, n);
    }
    assert !Occurs(at, |sounds|);
    hide Occurs;
  }

  lemma NoSounds()
    ensures SoundsAt([], [], [])
  {
  }

  lemma {:induction false} SoundsKept(sounds: seq<Option<Sound>>) returns (at: seq<nat>)
    ensures SoundsAt(sounds, Present(sounds), at)
  {
    hide SoundsAt;
    at := [];
    NoSounds();
    if sounds != [] {
      var front, s := sounds[..|sounds| - 1], sounds[|sounds| - 1];
      at := SoundsKept(front);
      MoreSounds(front, Present(front), at, s);
      assert sounds == front + [s] && Present(front) + [] == Present(front);
      at := if s.Some? then at + [|front|] else at;
    }
  }

  /** The present segments are emitted in their order, each once: their numbers increase and none is missing. */
  lemma {:induction false} EmittedInOrder(segs: seq<Option<Segment>>)
    ensures forall m | 0 <= m < |Emitted(segs)| :: Emitted(segs)[m].id < |segs|
    ensures forall a, b | 0 <= a < b < |Emitted(segs)| :: Emitted(segs)[a].id < Emitted(segs)[b].id
    ensures forall k | 0 <= k < |segs| && segs[k].Some? :: exists m :: 0 <= m < |Emitted(segs)| && Emitted(segs)[m].id == k
  {
    hide Order, IndexOf, SpeakerId;
    if segs != [] {
      var n := |segs| - 1;
      var front := segs[..n];
      EmittedInOrder(front);
      assert forall m | 0 <= m < |Emitted(front)| :: Emitted(segs)[m] == Emitted(front)[m];
      forall k | 0 <= k < |segs| && segs[k].Some? ensures exists m :: 0 <= m < |Emitted(segs)| && Emitted(segs)[m].id == k {
        if k < n {
          assert front[k] == segs[k];
          var m :| 0 <= m < |Emitted(front)| && Emitted(front)[m].id == k;
          assert Emitted(segs)[m].id == k;
        } else {
          assert Emitted(segs)[|Emitted(front)|].id == k;
        }
      }
    }
  }

  /** A speaker's name is that of the first segment with the label that has one. */
  lemma {:induction false} NameIsTheFirst(segs: seq<Option<Segment>>, k: nat)
    requires k < |segs| && segs[k].Some? && segs[k].value.name != ""
    requires forall j | 0 <= j < k && segs[j].Some? && RawLabel(segs[j].value) == RawLabel(segs[k].value) :: segs[j].value.name == ""
    ensures NameOf(segs, RawLabel(segs[k].value)) == segs[k].value.name
  {
    var n := |segs| - 1;
    if k < n {
      NameIsTheFirst(segs[..n], k);
    } else {
      NoName(segs[..n], RawLabel(segs[k].value));
    }
  }

  lemma {:induction false} NoName(segs: seq<Option<Segment>>, tag: string)
    requires forall j | 0 <= j < |segs| && segs[j].Some? && RawLabel(segs[j].value) == tag :: segs[j].value.name == ""
    ensures NameOf(segs, tag) == ""
  {
    if segs != [] {
      NoName(segs[..|segs| - 1], tag);
    }
  }

  /** Every emitted segment carries the identifier of the speaker entry that has its label. */
  lemma {:induction false} SegmentsNameTheirSpeaker(segs: seq<Option<Segment>>, m: nat)
    requires m < |Emitted(segs)|
    ensures var e := Emitted(segs)[m];
            && e.tag in Order(segs) && e.speaker == SpeakerId(IndexOf(Order(segs), e.tag))
            && e.id < |segs| && segs[e.id].Some? && Carries(e, segs[e.id].value)
  {
    var k := |segs| - 1;
    var front := segs[..k];
    hide SpeakerId;
    if m < |Emitted(front)| {
      SegmentsNameTheirSpeaker(front, m);
      OrderGrows(segs, k);
      OrderDistinct(segs);
      var tag := Emitted(front)[m].tag;
      assert Order(segs)[IndexOf(Order(front), tag)] == tag;
      IndexInOrder(segs, IndexOf(Order(front), tag));
    } else {
      OrderCovers(segs, RawLabel(segs[k].value));
    }
  }

  /** Two segments have the same identifier exactly when their raw labels are the same. */
  lemma SameSpeakerIffSameLabel(segs: seq<Option<Segment>>, a: nat, b: nat)
    requires a < |Emitted(segs)| && b < |Emitted(segs)|
    ensures Emitted(segs)[a].speaker == Emitted(segs)[b].speaker <==> Emitted(segs)[a].tag == Emitted(segs)[b].tag
  {
    SegmentsNameTheirSpeaker(segs, a);
    SegmentsNameTheirSpeaker(segs, b);
    var i, j := IndexOf(Order(segs), Emitted(segs)[a].tag), IndexOf(Order(segs), Emitted(segs)[b].tag);
    if SpeakerId(i) == SpeakerId(j) {
      SpeakerIdInjective(i, j);
    }
  }

  // ---------- Totals ----------

  function Plus(a: Tally, b: Tally): Tally {
    Tally(a.segments + b.segments, a.duration + b.duration)
  }

  function SumOver(order: seq<string>, segs: seq<Option<Segment>>): Tally {
    if order == [] then Tally(0, 0.0)
    else Plus(SumOver(order[..|order| - 1], segs), TallyOf(segs, order[|order| - 1]))
  }

  lemma {:induction false} SumOfOneMore(order: seq<string>, segs: seq<Option<Segment>>, last: Option<Segment>)
    requires Distinct(order)
    ensures SumOver(order, segs + [last]) ==
            if last.Some? && RawLabel(last.value) in order then Add(SumOver(order, segs), last.value) else SumOver(order, segs)
  {
    if order != [] {
      var front, tag := order[..|order| - 1], order[|order| - 1];
      assert order == front + [tag];
      assert (segs + [last])[..|segs|] == segs;
      SumOfOneMore(front, segs, last);
    }
  }

  /** The speakers' segment counts and durations add up to those of all segments. */
  lemma {:induction false} TalliesAddUp(segs: seq<Option<Segment>>)
    ensures SumOver(Order(segs), segs) == Total(segs)
  {
    if segs != [] {
      var front, last := segs[..|segs| - 1], segs[|segs| - 1];
      assert segs == front + [last];
      var before := Order(front);
      TalliesAddUp(front);
      OrderDistinct(front);
      OrderDistinct(segs);
      SumOfOneMore(Order(segs), front, last);
      if Order(segs) != before {
        NotSeen(front, RawLabel(last.value));
        assert Order(segs)[..|before|] == before;
      }
    }
  }

  /** The positive durations of the emitted segments. */
  function SpeechOf(out: seq<OutSegment>): real {
    if out == [] then 0.0
    else
      var last := out[|out| - 1];
      SpeechOf(out[..|out| - 1]) + if last.end > last.start then last.end - last.start else 0.0
  }

  /** The total is that of the emitted segments: their number, and the sum of their positive durations. */
  lemma {:induction false} TotalCountsEmitted(segs: seq<Option<Segment>>)
    ensures Total(segs) == Tally(|Emitted(segs)|, SpeechOf(Emitted(segs)))
  {
    hide Order, IndexOf, SpeakerId;
    if segs != [] {
      var front, out := segs[..|segs| - 1], Emitted(segs);
      TotalCountsEmitted(front);
      if segs[|segs| - 1].Some? {
        assert out[..|out| - 1] == Emitted(front);
      }
    }
  }

  /** A speaker's totals are those of the emitted segments with its label: their number, and the sum of their positive durations. */
  lemma {:induction false} TallyIsOwn(segs: seq<Option<Segment>>, tag: string)
    ensures var own := Filter((e: OutSegment) => e.tag == tag, Emitted(segs));
            TallyOf(segs, tag) == Tally(|own|, SpeechOf(own))
  {
    hide Order, IndexOf, SpeakerId;
    if segs != [] {
      var front, out, mine := segs[..|segs| - 1], Emitted(segs), (e: OutSegment) => e.tag == tag;
      TallyIsOwn(front, tag);
      if segs[|segs| - 1].Some? {
        assert out == Emitted(front) + [out[|out| - 1]];
        FilterLast(mine, Emitted(front), out[|out| - 1]);
        var own := Filter(mine, Emitted(front));
        assert (own + [out[|out| - 1]])[..|own|] == own && own + [] == own;
      }
    }
  }

  // ---------- The order of the speaker list ----------

  lemma TwoDigitsShape(i: nat)
    requires i < 100
    ensures TwoDigits(i) == [DigitChar(i / 10), DigitChar(i % 10)]
  {
    if i >= 10 {
      assert Dec(i) == Dec(i / 10) + [DigitChar(i % 10)];
    }
  }

  lemma IdsInOrder(i: nat, j: nat)
    requires i < j < 100
    ensures Less(SpeakerId(i), SpeakerId(j))
  {
    TwoDigitsShape(i);
    TwoDigitsShape(j);
    var a, b := TwoDigits(i), TwoDigits(j);
    assert a[1..] == [DigitChar(i % 10)] && b[1..] == [DigitChar(j % 10)];
    assert Less(a, b);
    LessAfterPrefix("SPEAKER_", a, b);
  }

  lemma HundredBeforeEleven()
    ensures Less(SpeakerId(100), SpeakerId(11))
  {
    var a, b := TwoDigits(100), TwoDigits(11);
    assert Dec(100) == Dec(10) + [DigitChar(0)] && Dec(10) == ['1', '0'];
    assert a == ['1', '0', '0'] && b == ['1', '1'];
    assert a[1..] == ['0', '0'] && b[1..] == ['1'];
    LessAfterPrefix("SPEAKER_", a, b);
  }

  /** The speaker list comes in first-seen order exactly when there are at most 100 speakers. */
  lemma ListedInFirstSeenOrder(segs: seq<Option<Segment>>)
    ensures Sort(ById, FirstSeen(segs)) == FirstSeen(segs) <==> |Order(segs)| <= 100
  {
    hide SpeakerId, TallyOf, NameOf, Order, Sort;
    var s := FirstSeen(segs);
    if |s| <= 100 {
      forall i, j | 0 <= i < j < |s| ensures !Less(ById(s[j]), ById(s[i])) {
        IdsInOrder(i, j);
        LessAsymmetric(SpeakerId(i), SpeakerId(j));
      }
      SortOfSorted(ById, s);
    } else {
      HundredBeforeEleven();
      assert Less(ById(s[100]), ById(s[11]));
      SortContents(ById, s);
    }
  }

  /** Whatever the order, the list holds every speaker once, and the identifiers differ. */
  lemma EverySpeakerListed(segs: seq<Option<Segment>>)
    ensures multiset(Sort(ById, FirstSeen(segs))) == multiset(FirstSeen(segs))
    ensures DistinctKeys(ById, FirstSeen(segs))
    ensures Sorted(ById, Sort(ById, FirstSeen(segs)))
  {
    hide SpeakerId, TallyOf, NameOf, Order, Sort;
    var s := FirstSeen(segs);
    SortContents(ById, s);
    forall i, j | 0 <= i < j < |s| ensures ById(s[i]) != ById(s[j]) {
      if SpeakerId(i) == SpeakerId(j) {
        SpeakerIdInjective(i, j);
      }
    }
  }

  /** Segments of as many speakers as asked for, each with its own label. */
  function Crowd(n: nat): seq<Option<Segment>>
    requires n <= 1000
  {
    seq(n, i requires 0 <= i < n => Some(Segment(0.0, 1.0, [(100 + i) as char], "", "", 0.0)))
  }

  lemma {:induction false} CrowdOrder(n: nat)
    requires n <= 1000
    ensures Order(Crowd(n)) == seq(n, i requires 0 <= i < n => [(100 + i) as char])
  {
    if n > 0 {
      CrowdOrder(n - 1);
      assert Crowd(n)[..n - 1] == Crowd(n - 1);
      var before := Order(Crowd(n - 1));
      assert forall i | 0 <= i < n - 1 :: before[i][0] == (100 + i) as char;
      assert [(100 + (n - 1)) as char] !in before;
    }
  }

  /** With 101 speakers the list is out of order. */
  lemma HundredAndOneSpeakers()
    ensures Sort(ById, FirstSeen(Crowd(101))) != FirstSeen(Crowd(101))
  {
    hide Sort, FirstSeen;
    CrowdOrder(101);
    ListedInFirstSeenOrder(Crowd(101));
  }
}
