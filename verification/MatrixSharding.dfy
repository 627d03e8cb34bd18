/**
 The build matrix of the release pipeline: splitting its entries by architecture
 class, sharding the single-architecture ones over a fixed number of jobs, and the
 merge matrix that each job's images are tagged from.
 */
module MatrixSharding {
  import opened Basics

  /** A matrix entry; a field that is missing reads as the empty string. */
  datatype Entry = Entry(backend: string, tagSuffix: string, tagLatest: string, platformTag: string)

  datatype Merge = Merge(tagSuffix: string, tagLatest: string)

  const SHARDS := 4
  const MATRIX_LIMIT := 256

  // ---------- Splitting by architecture ----------

  function OfClass(entries: seq<Entry>, multi: bool): seq<Entry> {
    if entries == [] then []
    else
      var last := entries[|entries| - 1];
      OfClass(entries[..|entries| - 1], multi) + if (last.platformTag != "") == multi then [last] else []
  }

  lemma {:induction false} ClassHolds(entries: seq<Entry>, multi: bool, k: nat)
    requires k < |OfClass(entries, multi)|
    ensures (OfClass(entries, multi)[k].platformTag != "") == multi
  {
    var front := entries[..|entries| - 1];
    if k < |OfClass(front, multi)| {
      ClassHolds(front, multi, k);
    }
  }

  /** Every entry goes to exactly one class, and none is dropped or repeated. */
  lemma {:induction false} SplitByArch(entries: seq<Entry>)
    ensures multiset(OfClass(entries, true)) + multiset(OfClass(entries, false)) == multiset(entries)
  {
    if entries != [] {
      hide OfClass;
      var front, last := entries[..|entries| - 1], entries[|entries| - 1];
      SplitByArch(front);
      assert entries == front + [last];
      ClassOfLast(front, last);
      MultisetOfLast(front, last);
      MultisetOfLast(OfClass(front, last.platformTag != ""), last);
      AddToSum(multiset(OfClass(front, true)), multiset(OfClass(front, false)), last);
    }
  }

  /** The positions of the entries of a class. */
  function ClassPositions(entries: seq<Entry>, multi: bool): seq<nat> {
    if entries == [] then []
    else
      var k := |entries| - 1;
      ClassPositions(entries[..k], multi) + if (entries[k].platformTag != "") == multi then [k] else []
  }

  /** A class lists its entries in the order of the matrix, and all of them. */
  lemma {:induction false} SplitKeepsOrder(entries: seq<Entry>, multi: bool)
    ensures var at, listed := ClassPositions(entries, multi), OfClass(entries, multi);
            && |at| == |listed|
            && (forall k | 0 <= k < |at| :: at[k] < |entries| && listed[k] == entries[at[k]])
            && (forall j, k | 0 <= j < k < |at| :: at[j] < at[k])
            && (forall i | 0 <= i < |entries| && (entries[i].platformTag != "") == multi :: i in at)
  {
    if entries != [] {
      SplitKeepsOrder(entries[..|entries| - 1], multi);
    }
  }

  lemma MultisetOfLast(front: seq<Entry>, last: Entry)
    ensures multiset(front + [last]) == multiset(front) + multiset{last}
  {
  }

  lemma AddToSum(a: multiset<Entry>, b: multiset<Entry>, e: Entry)
    ensures (a + multiset{e}) + b == (a + b) + multiset{e} && a + (b + multiset{e}) == (a + b) + multiset{e}
  {
  }

  lemma ClassOfLast(front: seq<Entry>, last: Entry)
    ensures var multi := last.platformTag != "";
            && OfClass(front + [last], multi) == OfClass(front, multi) + [last]
            && OfClass(front + [last], !multi) == OfClass(front, !multi)
  {
    assert (front + [last])[..|front|] == front;
  }

  // ---------- Chunks ----------

  function ChunkSize(n: nat, shards: nat, i: nat): nat
    requires shards > 0
  {
    n / shards + if i < n % shards then 1 else 0
  }

  /** The entries before chunk i. */
  function ChunkStart(n: nat, shards: nat, i: nat): nat
    requires shards > 0
  {
    n / shards * i + if i < n % shards then i else n % shards
  }

  lemma StartStep(n: nat, shards: nat, i: nat)
    requires shards > 0
    ensures ChunkStart(n, shards, i + 1) == ChunkStart(n, shards, i) + ChunkSize(n, shards, i)
    ensures ChunkStart(n, shards, 0) == 0 && ChunkStart(n, shards, shards) == n
  {
    var base := n / shards;
    assert base * (i + 1) == base * i + base;
    assert base * shards + n % shards == n;
  }

  lemma {:induction false} StartBound(n: nat, shards: nat, i: nat)
    requires shards > 0 && i <= shards
    ensures ChunkStart(n, shards, i) <= n
    decreases shards - i
  {
    hide ChunkStart, ChunkSize;
    StartStep(n, shards, i);
    if i < shards {
      StartBound(n, shards, i + 1);
    }
  }

  ghost predicate IsChunk(chunk: seq<Entry>, arr: seq<Entry>, shards: nat, k: nat)
    requires shards > 0
  {
    var from, to := ChunkStart(|arr|, shards, k), ChunkStart(|arr|, shards, k + 1);
    from <= to <= |arr| && chunk == arr[from..to]
  }

  ghost predicate AreChunks(chunks: seq<seq<Entry>>, arr: seq<Entry>) {
    |chunks| > 0 && forall k | 0 <= k < |chunks| :: IsChunk(chunks[k], arr, |chunks|, k)
  }

  lemma NothingChunked(arr: seq<Entry>)
    ensures Concat<Entry>([]) == arr[..0]
  {
  }

  lemma NextChunk(out: seq<seq<Entry>>, chunk: seq<Entry>, arr: seq<Entry>, shards: nat, i: nat)
    requires shards > 0
    ensures Concat(out + [chunk]) == Concat(out) + chunk
    ensures var from, to := ChunkStart(|arr|, shards, i), ChunkStart(|arr|, shards, i + 1);
            from <= to <= |arr| && chunk == arr[from..to] ==> IsChunk(chunk, arr, shards, i)
  {
    hide ChunkStart;
    assert (out + [chunk])[..|out|] == out;
  }

  /**
   Exactly `shards` consecutive chunks that make up the list, sizes never growing from
   one chunk to the next and differing by at most one.
   */
  method ChunkEqually(arr: seq<Entry>, shards: nat) returns (out: seq<seq<Entry>>)
    requires shards > 0
    ensures |out| == shards && Concat(out) == arr
    ensures forall i, j | 0 <= i <= j < shards :: |out[j]| <= |out[i]| <= |out[j]| + 1
    ensures forall i | 0 <= i < shards :: |out[i]| == ChunkSize(|arr|, shards, i)
    ensures AreChunks(out, arr)
  {
    hide ChunkStart, IsChunk, Concat;
    out := [];
    NothingChunked(arr);
    var base, rem := |arr| / shards, |arr| % shards;
    var idx, i := 0, 0;
    StartStep(|arr|, shards, 0);
    while i < shards
      invariant i <= shards && |out| == i && idx == ChunkStart(|arr|, shards, i) <= |arr|
      invariant Concat(out) == arr[..idx]
      invariant forall k | 0 <= k < i :: |out[k]| == ChunkSize(|arr|, shards, k)
      invariant forall k | 0 <= k < i :: IsChunk(out[k], arr, shards, k)
    {
      var size := base + if i < rem then 1 else 0;
      StartStep(|arr|, shards, i);
      StartBound(|arr|, shards, i + 1);
      var chunk := arr[idx..idx + size];
      NextChunk(out, chunk, arr, shards, i);
      assert arr[..idx] + chunk == arr[..idx + size];
      out := out + [chunk];
      idx := idx + size;
      i := i + 1;
    }
    assert arr[..idx] == arr;
  }

  // ---------- Merge matrix ----------

  /** The suffixes that occur, in the order they are first seen. */
  function Suffixes(entries: seq<Entry>): seq<string> {
    if entries == [] then []
    else
      var last, s := entries[|entries| - 1].tagSuffix, Suffixes(entries[..|entries| - 1]);
      if last == "" || last in s then s else s + [last]
  }

  /** The entries that share a suffix. */
  function Legs(entries: seq<Entry>, suffix: string): seq<Entry> {
    if entries == [] then []
    else
      var last := entries[|entries| - 1];
      Legs(entries[..|entries| - 1], suffix) + if last.tagSuffix == suffix then [last] else []
  }

  ghost predicate Grouped(groups: map<string, seq<Entry>>, entries: seq<Entry>) {
    && (forall s :: s in groups <==> s in Suffixes(entries))
    && forall s | s in Suffixes(entries) :: groups[s] == Legs(entries, s)
  }

  lemma {:induction false} NoLegs(entries: seq<Entry>, suffix: string)
    requires suffix != ""
    ensures suffix in Suffixes(entries) <==> Legs(entries, suffix) != []
  {
    if entries != [] {
      NoLegs(entries[..|entries| - 1], suffix);
    }
  }

  lemma AppendEntry(entries: seq<Entry>, e: Entry, s: string)
    ensures Legs(entries + [e], s) == Legs(entries, s) + if e.tagSuffix == s then [e] else []
    ensures Suffixes(entries + [e]) ==
            Suffixes(entries) + if e.tagSuffix == "" || e.tagSuffix in Suffixes(entries) then [] else [e.tagSuffix]
  {
    assert (entries + [e])[..|entries|] == entries;
  }

  /** One turn of the grouping loop. */
  lemma GroupStep(groups: map<string, seq<Entry>>, entries: seq<Entry>, e: Entry, after: map<string, seq<Entry>>)
    requires Grouped(groups, entries)
    requires if e.tagSuffix == "" then after == groups
             else after == groups[e.tagSuffix := (if e.tagSuffix in groups then groups[e.tagSuffix] else []) + [e]]
    ensures e.tagSuffix in groups <==> e.tagSuffix in Suffixes(entries)
    ensures Grouped(after, entries + [e])
  {
    hide Suffixes, Legs;
    var all := entries + [e];
    AppendEntry(entries, e, e.tagSuffix);
    NoEmptySuffix(entries);
    if e.tagSuffix != "" {
      NoLegs(entries, e.tagSuffix);
    }
    forall s | s in Suffixes(all) ensures s in after && after[s] == Legs(all, s) {
      AppendEntry(entries, e, s);
    }
  }

  lemma {:induction false} NoEmptySuffix(entries: seq<Entry>)
    ensures "" !in Suffixes(entries)
  {
    if entries != [] {
      NoEmptySuffix(entries[..|entries| - 1]);
    }
  }

  predicate Disagrees(legs: seq<Entry>) {
    exists k | 0 <= k < |legs| :: legs[k].tagLatest != legs[0].tagLatest
  }

  function MergeOf(entries: seq<Entry>, suffix: string): Merge {
    Merge(suffix, if Legs(entries, suffix) == [] then "" else Legs(entries, suffix)[0].tagLatest)
  }

  /** One merge per suffix, in first-seen order. */
  function MergeMatrix(entries: seq<Entry>): seq<Merge> {
    seq(|Suffixes(entries)|, i requires 0 <= i < |Suffixes(entries)| => MergeOf(entries, Suffixes(entries)[i]))
  }

  method GroupBySuffix(entries: seq<Entry>) returns (groups: map<string, seq<Entry>>, order: seq<string>)
    ensures order == Suffixes(entries) && Grouped(groups, entries)
  {
    hide Grouped, Suffixes;
    groups, order := map[], [];
    GroupedNothing();
    var i := 0;
    while i < |entries|
      invariant i <= |entries| && order == Suffixes(entries[..i]) && Grouped(groups, entries[..i])
    {
      var item := entries[i];
      assert entries[..i + 1] == entries[..i] + [item];
      ghost var before := groups;
      AppendEntry(entries[..i], item, item.tagSuffix);
      SameKeys(groups, entries[..i]);
      if item.tagSuffix != "" {
        var key := item.tagSuffix;
        if key !in groups {
          groups := groups[key := []];
          order := order + [key];
        }
        groups := groups[key := groups[key] + [item]];
        assert groups == before[key := (if key in before then before[key] else []) + [item]];
      }
      GroupStep(before, entries[..i], item, groups);
      i := i + 1;
    }
    assert entries[..i] == entries;
  }

  lemma SameKeys(groups: map<string, seq<Entry>>, entries: seq<Entry>)
    requires Grouped(groups, entries)
    ensures forall s :: s in groups <==> s in Suffixes(entries)
  {
  }

  lemma GroupedNothing()
    ensures Grouped(map[], []) && Suffixes([]) == []
  {
  }

  /** The latest tag of the first leg, and whether a later leg has another. */
  method FirstLatest(group: seq<Entry>) returns (first: string, odd: bool)
    requires group != []
    ensures first == group[0].tagLatest && odd == Disagrees(group)
  {
    first, odd := group[0].tagLatest, false;
    var k := 0;
    while k < |group| && !odd
      invariant k <= |group| && odd == exists m | 0 <= m < k :: group[m].tagLatest != first
    {
      odd := group[k].tagLatest != first;
      k := k + 1;
    }
  }

  /** The merge matrix, and the suffixes whose legs disagree about the latest tag. */
  method ComputeMergeMatrix(entries: seq<Entry>) returns (merges: seq<Merge>, warned: seq<string>)
    ensures merges == MergeMatrix(entries)
    ensures forall s :: s in warned <==> s != "" && Disputed(entries, s)
  {
    hide Legs, Suffixes, Disagrees, Disputed;
    var groups, order := GroupBySuffix(entries);
    merges, warned := [], [];
    var i := 0;
    while i < |order|
      invariant i <= |order| && merges == MergeMatrix(entries)[..i]
      invariant forall s :: s in warned <==> s in order[..i] && Disagrees(Legs(entries, s))
    {
      var group := groups[order[i]];
      NoEmptySuffix(entries);
      NoLegs(entries, order[i]);
      var first, odd := FirstLatest(group);
      assert order[..i + 1] == order[..i] + [order[i]];
      if odd {
        warned := warned + [order[i]];
      }
      merges := merges + [Merge(order[i], first)];
      i := i + 1;
    }
    assert order[..i] == order;
    forall s ensures s in Suffixes(entries) && Disagrees(Legs(entries, s)) <==> s != "" && Disputed(entries, s) {
      NoEmptySuffix(entries);
      DisagreesIff(entries, s);
    }
  }

  /** Two entries with the suffix differ in their latest tag. */
  predicate Disputed(entries: seq<Entry>, suffix: string) {
    exists a, b | a in entries && b in entries :: a.tagSuffix == suffix && b.tagSuffix == suffix && a.tagLatest != b.tagLatest
  }

  /** The legs of a suffix are its entries. */
  lemma {:induction false} LegsAre(entries: seq<Entry>, suffix: string, e: Entry)
    ensures e in Legs(entries, suffix) <==> e in entries && e.tagSuffix == suffix
  {
    if entries != [] {
      var front, last := entries[..|entries| - 1], entries[|entries| - 1];
      LegsAre(front, suffix, e);
      assert entries == front + [last];
    }
  }

  lemma DisagreesIff(entries: seq<Entry>, suffix: string)
    ensures Disagrees(Legs(entries, suffix)) <==> Disputed(entries, suffix)
    ensures suffix != "" && Disputed(entries, suffix) ==> suffix in Suffixes(entries)
  {
    hide Legs, Suffixes;
    var legs := Legs(entries, suffix);
    if Disputed(entries, suffix) {
      var a, b :| a in entries && b in entries && a.tagSuffix == suffix && b.tagSuffix == suffix && a.tagLatest != b.tagLatest;
      LegsAre(entries, suffix, a);
      LegsAre(entries, suffix, b);
      OneDisagrees(legs, a, b);
      if suffix != "" {
        SuffixIsThere(entries, a);
      }
    }
    if Disagrees(legs) {
      var m :| 0 <= m < |legs| && legs[m].tagLatest != legs[0].tagLatest;
      LegsAre(entries, suffix, legs[m]);
      LegsAre(entries, suffix, legs[0]);
      assert legs[m] in legs && legs[0] in legs;
    }
  }

  lemma OneDisagrees(legs: seq<Entry>, a: Entry, b: Entry)
    requires a in legs && b in legs && a.tagLatest != b.tagLatest
    ensures Disagrees(legs)
  {
    var i :| 0 <= i < |legs| && legs[i] == a;
    var j :| 0 <= j < |legs| && legs[j] == b;
    assert legs[i].tagLatest != legs[0].tagLatest || legs[j].tagLatest != legs[0].tagLatest;
  }

  lemma SuffixIsThere(entries: seq<Entry>, e: Entry)
    requires e in entries && e.tagSuffix != ""
    ensures e.tagSuffix in Suffixes(entries)
  {
    hide Suffixes;
    EverySuffixOnce(entries);
    var k :| 0 <= k < |entries| && entries[k] == e;
  }

  predicate Distinct(s: seq<string>) {
    forall i, j | 0 <= i < j < |s| :: s[i] != s[j]
  }

  /** Every suffixed entry is merged exactly once, under the latest tag of the first entry with its suffix. */
  lemma {:induction false} EverySuffixOnce(entries: seq<Entry>)
    ensures Distinct(Suffixes(entries))
    ensures forall k | 0 <= k < |entries| && entries[k].tagSuffix != "" :: entries[k].tagSuffix in Suffixes(entries)
    ensures forall s | s in Suffixes(entries) :: exists k | 0 <= k < |entries| :: entries[k].tagSuffix == s
  {
    if entries != [] {
      var front, last := entries[..|entries| - 1], entries[|entries| - 1];
      EverySuffixOnce(front);
      assert entries == front + [last];
      forall s | s in Suffixes(entries) ensures exists k | 0 <= k < |entries| :: entries[k].tagSuffix == s {
        if s in Suffixes(front) {
          var k :| 0 <= k < |front| && front[k].tagSuffix == s;
          assert entries[k].tagSuffix == s;
        } else {
          assert entries[|front|].tagSuffix == s;
        }
      }
    }
  }

  /** The first leg is the first entry of the list with the suffix. */
  lemma {:induction false} FirstLeg(entries: seq<Entry>, k: nat)
    requires k < |entries|
    requires forall m | 0 <= m < k :: entries[m].tagSuffix != entries[k].tagSuffix
    ensures Legs(entries, entries[k].tagSuffix) != [] && Legs(entries, entries[k].tagSuffix)[0] == entries[k]
  {
    var n := |entries| - 1;
    if k < n {
      FirstLeg(entries[..n], k);
    } else {
      LegsOfOthers(entries[..n], entries[k].tagSuffix);
    }
  }

  lemma {:induction false} LegsOfOthers(entries: seq<Entry>, suffix: string)
    requires forall m | 0 <= m < |entries| :: entries[m].tagSuffix != suffix
    ensures Legs(entries, suffix) == []
  {
    if entries != [] {
      LegsOfOthers(entries[..|entries| - 1], suffix);
    }
  }

  // ---------- Emission ----------

  datatype Line =
    | HasBackends(n: nat, value: bool)
    | HasMerges(n: nat, value: bool)
    | Matrix(n: nat, entries: seq<Entry>)
    | Merges(n: nat, merges: seq<Merge>)

  function LinesOf(n: nat, shard: seq<Entry>): seq<Line> {
    [HasBackends(n, shard != []), HasMerges(n, MergeMatrix(shard) != []), Matrix(n, shard), Merges(n, MergeMatrix(shard))]
  }

  function LinesTo(shards: seq<seq<Entry>>, k: nat): seq<Line>
    requires k <= |shards|
  {
    if k == 0 then [] else LinesTo(shards, k - 1) + LinesOf(k, shards[k - 1])
  }

  /**
   The lines of all shards: four of each, in the order of the shards, that say whether it
   has entries and whether any of them is merged, and list its entries and its merges.
   */
  lemma {:induction false} LinesAre(shards: seq<seq<Entry>>, k: nat, i: nat)
    requires i < k <= |shards|
    ensures |LinesTo(shards, k)| == 4 * k
    ensures var shard, lines := shards[i], LinesTo(shards, k);
            && lines[4 * i] == HasBackends(i + 1, |shard| > 0)
            && lines[4 * i + 1] == HasMerges(i + 1, exists m | 0 <= m < |shard| :: shard[m].tagSuffix != "")
            && lines[4 * i + 2] == Matrix(i + 1, shard)
            && lines[4 * i + 3] == Merges(i + 1, MergeMatrix(shard))
  {
    LinesCount(shards, k - 1);
    if i < k - 1 {
      LinesAre(shards, k - 1, i);
    } else {
      HasMergesIff(shards[i]);
    }
    hide MergeMatrix, Suffixes, Legs;
  }

  lemma {:induction false} LinesCount(shards: seq<seq<Entry>>, k: nat)
    requires k <= |shards|
    ensures |LinesTo(shards, k)| == 4 * k
  {
    if k > 0 {
      LinesCount(shards, k - 1);
    }
  }

  lemma HasMergesIff(shard: seq<Entry>)
    ensures MergeMatrix(shard) != [] <==> exists m | 0 <= m < |shard| :: shard[m].tagSuffix != ""
  {
    EverySuffixOnce(shard);
    NoEmptySuffix(shard);
    hide Suffixes, Legs;
    assert |MergeMatrix(shard)| == |Suffixes(shard)|;
    if Suffixes(shard) != [] {
      assert Suffixes(shard)[0] in Suffixes(shard);
    }
  }

  /** A merge of a list is of a suffix and the latest tag of the first entry that has it. */
  lemma MergeTells(entries: seq<Entry>, k: nat)
    requires k < |entries| && entries[k].tagSuffix != ""
    requires forall m | 0 <= m < k :: entries[m].tagSuffix != entries[k].tagSuffix
    ensures exists i :: 0 <= i < |MergeMatrix(entries)| && MergeMatrix(entries)[i] == Merge(entries[k].tagSuffix, entries[k].tagLatest)
    ensures forall i, j | 0 <= i < j < |MergeMatrix(entries)| :: MergeMatrix(entries)[i].tagSuffix != MergeMatrix(entries)[j].tagSuffix
  {
    FirstLeg(entries, k);
    EverySuffixOnce(entries);
    hide Legs, Suffixes;
    var i :| 0 <= i < |Suffixes(entries)| && Suffixes(entries)[i] == entries[k].tagSuffix;
    assert MergeMatrix(entries)[i] == MergeOf(entries, Suffixes(entries)[i]);
  }

  /** The file the workflow reads its outputs from. */
  class Output {
    var lines: seq<Line>

    constructor ()
      ensures lines == []
    {
      lines := [];
    }

    /** The four lines of one shard. */
    method WriteShard(n: nat, shard: seq<Entry>)
      modifies this
      ensures lines == old(lines) + [HasBackends(n, shard != []), HasMerges(n, MergeMatrix(shard) != []),
                                     Matrix(n, shard), Merges(n, MergeMatrix(shard))]
    {
      hide MergeMatrix, Suffixes, Legs, Disagrees;
      var merge, _ := ComputeMergeMatrix(shard);
      lines := lines + [HasBackends(n, |shard| > 0)];
      lines := lines + [HasMerges(n, |merge| > 0)];
      lines := lines + [Matrix(n, shard)];
      lines := lines + [Merges(n, merge)];
    }
  }

  lemma FirstShard(n: nat)
    ensures ChunkSize(n, SHARDS, 0) >= MATRIX_LIMIT <==> n >= 1021
  {
  }

  /**
   Writing the shards. The size error comes exactly from 1021 entries on, always at
   the first shard, and then nothing is written; else every shard is written in full.
   */
  method EmitSinglearchShards(out: Output, singlearch: seq<Entry>) returns (thrown: nat, ghost shards: seq<seq<Entry>>)
    modifies out
    ensures |shards| == SHARDS && Concat(shards) == singlearch
    ensures thrown == (if |singlearch| >= 1021 then 1 else 0)
    ensures out.lines == old(out.lines) + if thrown == 0 then LinesTo(shards, SHARDS) else []
    ensures thrown == 0 ==> forall i | 0 <= i < SHARDS :: |shards[i]| < MATRIX_LIMIT
    ensures Distinct(AllSuffixes(shards)) <==> Together(singlearch, SHARDS)
  {
    hide MergeMatrix, Concat, ChunkSize, AreChunks, Together, Distinct, AllSuffixes;
    var chunks := ChunkEqually(singlearch, SHARDS);
    shards := chunks;
    ShardsMergeOnce(chunks, singlearch);
    FirstShard(|singlearch|);
    var i := 0;
    while i < SHARDS
      invariant i <= SHARDS && out.lines == old(out.lines) + LinesTo(chunks, i)
      invariant i > 0 ==> |singlearch| < 1021
    {
      var shard := chunks[i];
      if |shard| >= MATRIX_LIMIT {
        return i + 1, shards;
      }
      out.WriteShard(i + 1, shard);
      i := i + 1;
    }
    thrown := 0;
  }

  // ---------- Merges over all shards ----------

  /** The suffixes of the entries, without the empty ones. */
  function Named(entries: seq<Entry>): seq<string> {
    if entries == [] then [] else Named(entries[..|entries| - 1]) + Tag(entries[|entries| - 1])
  }

  function Tag(e: Entry): seq<string> {
    if e.tagSuffix == "" then [] else [e.tagSuffix]
  }

  lemma NamedLast(front: seq<Entry>, last: Entry)
    ensures Named(front + [last]) == Named(front) + Tag(last)
  {
    assert (front + [last])[..|front|] == front;
  }

  lemma NamedOfNone()
    ensures Named([]) == []
  {
  }

  lemma Associates<T>(a: seq<T>, b: seq<T>, c: seq<T>)
    ensures (a + b) + c == a + (b + c)
  {
  }

  lemma {:induction false} NamedAppend(a: seq<Entry>, b: seq<Entry>)
    ensures Named(a + b) == Named(a) + Named(b)
  {
    hide Named, Tag;
    if b == [] {
      NamedOfNone();
      assert a + b == a;
    } else {
      var front, last := b[..|b| - 1], b[|b| - 1];
      NamedAppend(a, front);
      NamedLast(a + front, last);
      NamedLast(front, last);
      assert b == front + [last];
      Associates(a, front, [last]);
      Associates(Named(a), Named(front), Tag(last));
    }
  }

  lemma {:induction false} DistinctSuffixes(entries: seq<Entry>)
    requires Distinct(Named(entries))
    ensures Suffixes(entries) == Named(entries)
  {
    if entries != [] {
      var k := |entries| - 1;
      var front, last := Named(entries[..k]), entries[k].tagSuffix;
      assert Named(entries) == front + if last == "" then [] else [last];
      assert forall i | 0 <= i < |front| :: Named(entries)[i] == front[i];
      assert last != "" ==> Named(entries)[|front|] == last && last !in front;
      DistinctSuffixes(entries[..k]);
    }
  }

  function AllSuffixes(shards: seq<seq<Entry>>): seq<string> {
    if shards == [] then [] else AllSuffixes(shards[..|shards| - 1]) + Suffixes(shards[|shards| - 1])
  }

  /**
   When no two single-architecture entries share a suffix, the merge matrices of all
   shards together hold the suffixes in the order of the entries.
   */
  lemma {:induction false} MergedInOrder(shards: seq<seq<Entry>>)
    requires Distinct(Named(Concat(shards)))
    ensures AllSuffixes(shards) == Named(Concat(shards))
  {
    if shards != [] {
      var front, last := shards[..|shards| - 1], shards[|shards| - 1];
      var a, b := Named(Concat(front)), Named(last);
      NamedAppend(Concat(front), last);
      DistinctAppend(a, b);
      hide Named, Distinct, Suffixes;
      MergedInOrder(front);
      DistinctSuffixes(last);
    }
  }

  /** No suffix occurs in two shards. */
  ghost predicate Apart(shards: seq<seq<Entry>>) {
    forall p, q, i, j | 0 <= p < q < |shards| && 0 <= i < |shards[p]| && 0 <= j < |shards[q]| ::
      shards[p][i].tagSuffix == "" || shards[p][i].tagSuffix != shards[q][j].tagSuffix
  }

  lemma DistinctAppend(a: seq<string>, b: seq<string>)
    ensures Distinct(a + b) <==> Distinct(a) && Distinct(b) && forall x | x in a :: x !in b
  {
    var s := a + b;
    if Distinct(s) {
      forall i, j | 0 <= i < |a| && 0 <= j < |b| ensures a[i] != b[j] {
        var y := |a| + j;
        assert s[i] == a[i] && s[y] == b[j] && s[i] != s[y];
      }
      forall i, j | 0 <= i < j < |b| ensures b[i] != b[j] {
        var x, y := |a| + i, |a| + j;
        assert s[x] == b[i] && s[y] == b[j] && s[x] != s[y];
      }
      forall i, j | 0 <= i < j < |a| ensures a[i] != a[j] {
        assert s[i] == a[i] && s[j] == a[j];
      }
    }
    if Distinct(a) && Distinct(b) && forall x | x in a :: x !in b {
      forall i, j | 0 <= i < j < |s| ensures s[i] != s[j] {
        var x, y := i - |a|, j - |a|;
        if j < |a| {
          assert s[i] == a[i] && s[j] == a[j];
        } else if i < |a| {
          assert s[i] == a[i] && s[i] in a && s[j] == b[y];
        } else {
          assert s[i] == b[x] && s[j] == b[y];
        }
      }
    }
  }

  lemma {:induction false} AllSuffixesAre(shards: seq<seq<Entry>>, x: string)
    ensures x in AllSuffixes(shards) <==> exists p | 0 <= p < |shards| :: x in Suffixes(shards[p])
  {
    if shards != [] {
      var n := |shards| - 1;
      AllSuffixesAre(shards[..n], x);
      if x in AllSuffixes(shards[..n]) {
        var p :| 0 <= p < n && x in Suffixes(shards[..n][p]);
        assert x in Suffixes(shards[p]);
      }
    }
  }

  lemma SuffixIff(entries: seq<Entry>, x: string)
    ensures x in Suffixes(entries) <==> x != "" && exists i | 0 <= i < |entries| :: entries[i].tagSuffix == x
  {
    EverySuffixOnce(entries);
    NoEmptySuffix(entries);
  }

  /** A last shard is apart from the others when it shares no suffix with them. */
  lemma ApartLast(shards: seq<seq<Entry>>)
    requires shards != []
    ensures var n := |shards| - 1;
            Apart(shards) <==> Apart(shards[..n]) && forall x | x in AllSuffixes(shards[..n]) :: x !in Suffixes(shards[n])
  {
    hide AllSuffixes, Suffixes;
    var n := |shards| - 1;
    var front := shards[..n];
    if Apart(shards) {
      forall x | x in AllSuffixes(front) ensures x !in Suffixes(shards[n]) {
        AllSuffixesAre(front, x);
        var p :| 0 <= p < n && x in Suffixes(front[p]);
        SuffixIff(front[p], x);
        SuffixIff(shards[n], x);
        var i :| 0 <= i < |shards[p]| && shards[p][i].tagSuffix == x;
      }
    }
    if Apart(front) && forall x | x in AllSuffixes(front) :: x !in Suffixes(shards[n]) {
      forall p, q, i, j | 0 <= p < q < |shards| && 0 <= i < |shards[p]| && 0 <= j < |shards[q]|
        ensures shards[p][i].tagSuffix == "" || shards[p][i].tagSuffix != shards[q][j].tagSuffix
      {
        var x := shards[p][i].tagSuffix;
        assert front[p] == shards[p];
        if q == n {
          AllSuffixesAre(front, x);
          SuffixIff(front[p], x);
          SuffixIff(shards[n], x);
        } else {
          assert front[q] == shards[q];
        }
      }
    }
  }

  /** All shards together merge every suffix once if and only if no suffix occurs in two shards. */
  lemma {:induction false} MergedOnceOverall(shards: seq<seq<Entry>>)
    ensures Distinct(AllSuffixes(shards)) <==> Apart(shards)
  {
    hide Apart, Distinct, Suffixes;
    if shards == [] {
      NoShardsApart();
    } else {
      var n := |shards| - 1;
      MergedOnceOverall(shards[..n]);
      EverySuffixOnce(shards[n]);
      DistinctAppend(AllSuffixes(shards[..n]), Suffixes(shards[n]));
      ApartLast(shards);
    }
  }

  lemma NoShardsApart()
    ensures Apart([]) && Distinct([])
  {
  }

  /** Entries of one suffix lie on one side of every boundary between shards. */
  ghost predicate Together(entries: seq<Entry>, shards: nat)
    requires shards > 0
  {
    forall i, j, k | 0 <= i < j < |entries| && entries[i].tagSuffix == entries[j].tagSuffix != "" && 0 < k < shards ::
      !(i < ChunkStart(|entries|, shards, k) <= j)
  }

  lemma {:induction false} StartsGrow(n: nat, shards: nat, p: nat, q: nat)
    requires shards > 0 && p <= q
    ensures ChunkStart(n, shards, p) <= ChunkStart(n, shards, q)
    decreases q
  {
    hide ChunkStart;
    if p < q {
      StartsGrow(n, shards, p, q - 1);
      StartStep(n, shards, q - 1);
    }
  }

  lemma {:induction false} ShardAt(n: nat, shards: nat, i: nat, k: nat) returns (p: nat)
    requires shards > 0 && k <= shards && i < ChunkStart(n, shards, k)
    ensures p < k && ChunkStart(n, shards, p) <= i < ChunkStart(n, shards, p + 1)
  {
    hide ChunkStart;
    StartStep(n, shards, 0);
    if ChunkStart(n, shards, k - 1) <= i {
      p := k - 1;
    } else {
      p := ShardAt(n, shards, i, k - 1);
    }
  }

  /** The chunks of a list are apart exactly when its entries of one suffix lie together. */
  lemma ChunksApart(chunks: seq<seq<Entry>>, arr: seq<Entry>)
    requires AreChunks(chunks, arr)
    ensures Apart(chunks) <==> Together(arr, |chunks|)
  {
    hide ChunkStart;
    var n, shards := |arr|, |chunks|;
    if Together(arr, shards) {
      forall p, q, i, j | 0 <= p < q < |chunks| && 0 <= i < |chunks[p]| && 0 <= j < |chunks[q]|
        ensures chunks[p][i].tagSuffix == "" || chunks[p][i].tagSuffix != chunks[q][j].tagSuffix
      {
        assert IsChunk(chunks[p], arr, shards, p) && IsChunk(chunks[q], arr, shards, q);
        var x, y := ChunkStart(n, shards, p) + i, ChunkStart(n, shards, q) + j;
        StartsGrow(n, shards, p + 1, q);
        assert chunks[p][i] == arr[x] && chunks[q][j] == arr[y] && x < ChunkStart(n, shards, q) <= y;
      }
    }
    if Apart(chunks) {
      forall i, j, k | 0 <= i < j < n && arr[i].tagSuffix == arr[j].tagSuffix != "" && 0 < k < shards
        ensures !(i < ChunkStart(n, shards, k) <= j)
      {
        if i < ChunkStart(n, shards, k) <= j {
          SplitPair(chunks, arr, i, j, k);
        }
      }
    }
  }

  lemma SplitPair(chunks: seq<seq<Entry>>, arr: seq<Entry>, i: nat, j: nat, k: nat)
    requires AreChunks(chunks, arr) && i < j < |arr| && 0 < k < |chunks|
    requires i < ChunkStart(|arr|, |chunks|, k) <= j && arr[i].tagSuffix == arr[j].tagSuffix != ""
    ensures !Apart(chunks)
  {
    hide ChunkStart;
    var n, shards := |arr|, |chunks|;
    StartStep(n, shards, 0);
    var p := ShardAt(n, shards, i, k);
    var q := ShardAt(n, shards, j, shards);
    if q < k {
      StartsGrow(n, shards, q + 1, k);
    }
    assert IsChunk(chunks[p], arr, shards, p) && IsChunk(chunks[q], arr, shards, q);
    var x, y := i - ChunkStart(n, shards, p), j - ChunkStart(n, shards, q);
    assert chunks[p][x] == arr[i] && chunks[q][y] == arr[j];
  }

  /** What the program writes merges every suffix once if and only if the entries of each lie together. */
  lemma ShardsMergeOnce(chunks: seq<seq<Entry>>, arr: seq<Entry>)
    requires AreChunks(chunks, arr)
    ensures Distinct(AllSuffixes(chunks)) <==> Together(arr, |chunks|)
  {
    MergedOnceOverall(chunks);
    ChunksApart(chunks, arr);
  }

  /** Two entries of one suffix alone are already split over the first two of the four shards. */
  lemma TwoLegsAreMergedTwice(a: Entry, b: Entry)
    requires a.tagSuffix == b.tagSuffix != ""
    ensures !Together([a, b], SHARDS)
  {
    assert ChunkStart(2, SHARDS, 1) == 1;
    assert [a, b][0].tagSuffix == [a, b][1].tagSuffix;
  }
}
